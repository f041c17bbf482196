# Meshelle in Dafny

Meshelle hosts chat rooms on a LoRa mesh. Clients log in over the air, post short texts, and
are sent the posts they have missed, one at a time, each acknowledged by a four-byte hash.
This project models the parts of it where something can go wrong over time, and proves what
they keep.

- **The room** (`RoomSpec`, `RoomInvariant`, `RoomRuns`, `RoomSchedule`, `RoomQuiet`,
  `RoomProgress`, `RoomCatchUp`, `RoomReplies`, `RoomSteps`, `RoomEdges`, `RoomWitness`,
  `RoomServer`, `Repo`, `Sync`, `Acl`). `RoomSpec` is the room as a state machine on values,
  with a log beside it that the steps write and never read: the whole history of posts, what
  each client claimed and has acknowledged since, what each live session has caused.
  `RoomInvariant` proves one invariant for every step, and `RoomRuns` draws the guarantees over
  every run from it. `RoomSchedule`, `RoomQuiet`, `RoomProgress` and `RoomCatchUp` prove that
  the push loop gets somewhere, over runs in which anything may arrive from other clients in
  between; `RoomReplies` and `RoomSteps` say, written out field by field, what each packet
  comes to and what the room answers; `RoomEdges` and `RoomWitness` say exactly where the
  guarantees end, with runs that end there. `RoomServer` is the imperative program (session
  objects updated in place, an ordered session table, a store whose rows change); each method
  is proved equal to the step of the same name, and each entry point to the event of a run,
  keeping the invariant.
- **The wire** (`Packet`, `Posts`, `Frames`, `TextSplit`, `Utf8`, `Crypto`, `Bytes`): codecs
  and their inverses, UTF-8 truncation and splitting (section 3 of RFC 3629), the sizes of
  everything sent, and the agreement of both ends on an acknowledgement.
- **The node** (`SeenTable`, `Dispatcher`, `Link`): duplicate suppression against a
  declarative window, routing, and the outbound queue across reconnects.
- **Signing** (`Ed25519`, `ModRing`): sections 5.1.4 to 5.1.7 of RFC 8032, over an abstract
  group.
- **Environment files** (`Dotenv`, `DotenvText`, `DotenvCases`, `PyStr`): the parser, its
  loops, what it can carry, and what reloading does.
- `Seqs`, `Wrappers`: facts about sequences, and `Option` and `Result`.

## What is assumed

- Each packet handler and each `push_once` is one atomic step. `push_once` awaits the database
  between choosing a post (src/meshelle/room/server.py:1050) and arming the slot
  (src/meshelle/room/server.py:1107); what another task might do there is not modelled. Each
  database transaction is atomic.
- Settings under which no post retention is negative and `max_posts` is positive. Validation sees
  to the second only (src/meshelle/config/model.py:319, 71-72, 150); see below for the first. The
  client retention may be anything.
- Clocks (every reading a step takes is its own), random bits, and the order in which the database lists clients with equal
  `first_seen` are parameters of each step, so every theorem holds for every choice. Clock
  readings may go backwards, except in `SeenTable` and `Dispatcher`, whose clock is monotonic.
- The cipher inverts on whole blocks (`Crypto.Primitives.Sound`); hashes and MACs are
  uninterpreted functions, so checksums may collide. An acknowledgement counts for the
  session that was waiting for its hash, whoever sent it. Statements about one client's
  acknowledgement say what they need: that no earlier session awaits the same hash.
- Decoding bytes with replacement introduces no NUL, and a console line without NULs posts
  none (`RoomSpec.Env.Sound`).
- Ed25519: associativity, the neutral element, and that adding points adds the elements they
  stand for, are taken from the group; everything else about `_add`, the loop and the
  signature is proved.

## Where code and documentation differ

The model follows the code.

- `client_retention` promises that "a client still owed a post is never forgotten"
  (src/meshelle/config/model.py:324-332). The code looks at idleness alone
  (src/meshelle/store/repo.py:371-424), and a row's `last_activity` is written only at login
  (src/meshelle/store/repo.py:274-277). `RoomEdges.SurvivesExactly` and
  `RoomEdges.SurvivesStartExactly` give the exact conditions, `RoomWitness.OwedClientForgotten` a
  run in which a client is owed a post, was heard a second ago, and is forgotten.
- An acknowledged text is not always stored: any message kind takes the timestamp, and an equal
  one counts as a retry (src/meshelle/room/server.py:517, 567-569).
  `RoomEdges.AckedTextStoredExactly` says when it is, `RoomEdges.RequestSwallowsText` shows a text
  acknowledged and lost.
- `post_ts` is meant to rise strictly (src/meshelle/store/repo.py:96-100), and does not under a
  negative `post_retention`, which validation accepts: a post is then pruned by the transaction
  that stores it, and its timestamp given out again. `RoomEdges.TimestampsRiseExactly` proves that
  timestamps rise in every run if and only if the retention is not negative.
- A path learned from a PATH packet can exceed 64 bytes (src/meshelle/proto/packet.py:478-497). A
  push over such a path arms the slot and then fails to build its packet
  (src/meshelle/room/server.py:1107-1116), and nothing catches that: the push loop ends, and with
  it the task group and the process (src/meshelle/room/server.py:1018,
  src/meshelle/app.py:373-411). A timestamp outside 32 bits does the same before the slot is armed.
  The model has both as the outcome `Raised`. `RoomProgress.RaisesExactly` says exactly when,
  `RoomWitness.LongPathEndsTheProcess` is a run from an empty database that ends so, and
  `RoomWitness.RaisesAfterRestart` shows that the stored path ends the next process too. What
  follows a raise in the source is a restart or nothing; the safety results hold of every
  continuation, and the progress results are about runs in which no earlier step raised.
- A welcome chunk with a NUL in it is read back shortened, so that only a colliding hash could
  acknowledge it, and it holds up every post to the clients it is queued for:
  `Posts.ReadBackExactly`.

## Model

| member | source | states |
|---|---|---|
| RoomRuns.EveryRunKeepsTheInvariant | src/meshelle/room/server.py:230-1136 | From an empty database, any sequence of packets, push steps, reloads and restarts, with any clock readings, ends in a state that meets the whole invariant |
| RoomRuns.GapFreeSync | src/meshelle/room/server.py:813-842 | In every run, the posts a client acknowledged since its last claim are, in order and once each, exactly those it did not write between claim and cursor, of the posts present at the claim or issued since; its session agrees on the cursor |
| RoomRuns.NothingOwedIsLost | src/meshelle/store/repo.py:186-234 | In every run, what a known client is owed out of the stored posts is what it is owed out of the whole history since its claim: no prune has taken a post above its cursor |
| RoomRuns.HistoryOnlyGrows | src/meshelle/store/repo.py:93-105 | In every run under settings without a negative post retention, and for any clock, `post_ts` rises strictly over the whole history, the stored posts are a contiguous end of it, the newest post is never pruned, and every text stored is NUL-free and within 151 bytes |
| RoomRuns.MemoryMatchesDisk | src/meshelle/room/server.py:230-273 | In every run, sessions and rows with a usable key correspond one to one and agree on cursor and return path |
| RoomRuns.EverySessionBehaves | src/meshelle/room/server.py:1024-1119 | In every run, a pending post push is for the least post owed, with the welcome queue empty; a pending welcome push is for the head of the queue; pushes since the last reset are at most the failures plus the pending one, and that sum never exceeds `max_push_failures` |
| RoomRuns.AckAdvancesByOne | src/meshelle/room/server.py:813-842 | An accepted post acknowledgement moves the cursor, in memory and on disk, to the oldest owed post, so the forward-only guard never blocks it, and leaves exactly the other posts owed: one fewer |
| RoomRuns.RestartResumes | src/meshelle/room/server.py:230-273 | A restart changes no retained client's row, cursor or set of owed posts, gives every usable one a session, and clears only slots, failures and welcome queues |
| RoomRuns.RunTimes | src/meshelle/room/server.py:374-385 | Through any run during which a session lives, its `last_timestamp` never decreases |
| RoomRuns.AtMostOnce | src/meshelle/room/server.py:504-520 | After a message has been handled, no message with the same or an older timestamp, whatever arrives in between while the session lives, stores another post or runs another command |
| RoomSchedule.EachVisitedOnce | src/meshelle/room/server.py:1030-1033 | Over any run with a fixed set of n sessions that holds n push steps, whatever is received between them, each session has exactly one turn |
| RoomSchedule.TurnAfter | src/meshelle/room/server.py:1030-1033 | After any such run the turn is as many places on as there were push steps: no other event moves it |
| RoomQuiet.StepLeaves | src/meshelle/room/server.py:319-338 | No event from other clients and no other session's turn changes a session, but for the role a reload gives it, its account of what was acknowledged, or the history so far |
| RoomQuiet.OwedGrows | src/meshelle/store/repo.py:127-154 | Through such events, what a client is owed only gains new posts at its end |
| RoomProgress.PushOutcomeExactly | src/meshelle/room/server.py:1024-1077 | In terms of what is stored: a push step sends if and only if the session whose turn it is has a free or timed-out slot, has been heard from, has failures below the limit, and a welcome chunk or a settled post to come; it raises instead if the timestamp is outside 32 bits or the path over 64 bytes |
| RoomProgress.RaisesExactly | src/meshelle/room/server.py:1098-1119 | A push step raises if and only if the session whose turn it is could be sent something and its path is over 64 bytes or the timestamp outside 32 bits |
| RoomProgress.NothingRaises | src/meshelle/room/server.py:1098-1119 | With every path at most 64 bytes and every timestamp within 32 bits, no push step raises |
| RoomProgress.ServedWithinRound | src/meshelle/room/server.py:1024-1077 | Over any run with a fixed set of n sessions, in which the client of one with a free slot, heard from and with failures below the limit, sends nothing itself, that session is sent exactly its next welcome chunk or oldest settled post within n push steps, whatever the others do, unless an earlier step raises |
| RoomProgress.PushedThenAcknowledged | src/meshelle/room/server.py:813-842 | The checksum a client computes from the sealed datagram of a post push is the one awaited, and accepting it for that session takes exactly that post off what is owed |
| RoomCatchUp.RoundDelivers | src/meshelle/room/server.py:1024-1077 | A run up to the answer of a client, with anything from others before and after its turn, delivers its next message, welcome chunk or oldest post, and leaves it ready for the next |
| RoomCatchUp.CatchesUp | src/meshelle/store/repo.py:157-174 | After as many answered rounds as there are welcome chunks queued and posts in a backlog, the queue is empty and the posts acknowledged are the backlog, in order |
| RoomCatchUp.CaughtUp | src/meshelle/store/repo.py:157-174 | With the whole backlog delivered, everything still owed was posted in the meantime |
| RoomReplies.TextAcknowledgedExactly | src/meshelle/room/server.py:498-543 | A text is acknowledged if and only if its session is known, it is no replay, the role may post and an answer can be addressed; the hash is that of what the client encoded, whatever the cipher padding |
| RoomReplies.KeepAliveClaims | src/meshelle/room/server.py:684-716 | On the bytes: four data bytes of a timestamp other than zero become the cursor in session and row, forwards or backwards, and open a new account; the answer hashes the first nine bytes and counts the posts above that timestamp |
| RoomReplies.KeepAliveWithoutClaim | src/meshelle/room/server.py:684-716 | With fewer data bytes, or zeros, cursor, row and account stay, and the answer counts above the cursor |
| RoomReplies.KeepAliveTellsWhatIsOwed | src/meshelle/room/server.py:711-716 | What the answer counts is everything still owed of the whole history since the claim, up to 255 |
| RoomReplies.WelcomeAcknowledged | src/meshelle/room/server.py:813-842 | Acknowledging a welcome chunk takes the head off the queue and moves no cursor and no row |
| RoomReplies.WelcomePushedThenAcknowledged | src/meshelle/room/server.py:1079-1096 | For a chunk without NUL, the checksum a client computes from the sealed welcome push is the one awaited, and accepting it for that session takes exactly that chunk off the queue |
| RoomReplies.LoginQueuesNulFree | src/meshelle/room/server.py:422-425 | Logins under a welcome without NULs queue only such chunks |
| RoomReplies.SlotHeldUntilTimeout | src/meshelle/mesh/scheduler.py:94-98 | A push made holds its slot exactly until the timeout for its route and hop count, and then costs one failure |
| RoomSteps.LoginRefusedExactly | src/meshelle/room/server.py:364-388 | A login is refused without effect if and only if its key is unusable, nothing grants it a role, or its session has taken as new a timestamp |
| RoomSteps.LoginRowExactly | src/meshelle/store/repo.py:246-283 | Every field of the row a granted login writes, no other row changed, and the account it opens |
| RoomSteps.LoginSessionExactly | src/meshelle/room/server.py:390-429 | Every field of the session a granted login sets, what it leaves, and when it is answered |
| RoomSteps.RowKeepsTimestamp | src/meshelle/store/repo.py:274-277 | Through any run without a login of its client, restarts included, a row that stays keeps the timestamp of the last login |
| RoomSteps.ReplayRefusedAfterRestart | src/meshelle/room/server.py:247-272 | Directly after a restart that keeps the client, a login no newer than the one its row remembers is refused |
| RoomSteps.CapturedLoginRefused | src/meshelle/room/server.py:374-388 | After a granted login, then anything that leaves the client its row, then a restart that keeps it, no login as old or older has any effect |
| RoomSteps.IgnoredExactly | src/meshelle/room/server.py:498-512 | Replays, unknown senders and signed texts do nothing |
| RoomSteps.TextHeard | src/meshelle/room/server.py:517-522 | Any other text sets the replay guard, the activity and the failure count of its session, and nothing else of it |
| RoomSteps.RequestHeard | src/meshelle/room/server.py:655-661 | So does a request, which if it is no direct keep-alive does nothing more |
| RoomSteps.TextStoredExactly | src/meshelle/room/server.py:545-577 | A plain text adds a post, by its sender, if and only if the sender may write, the timestamp is new and the text not empty |
| RoomSteps.ConsoleStoresExactly | src/meshelle/room/server.py:608-629 | A console line adds a post, by the room, if and only if an admin sends it for the first time and it is a posting command; it is never acknowledged |
| RoomSteps.StoreKeepsExactly | src/meshelle/store/repo.py:186-234 | After a post is stored, a post is left if and only if it is neither too old nor beyond the count, or some client left has not passed it |
| RoomSteps.PathLearned | src/meshelle/room/server.py:781-800 | A path return gives session and row its path and packed length |
| RoomSteps.PathWithAck | src/meshelle/room/server.py:806-811 | A bundled acknowledgement counts as one arriving just after |
| RoomSteps.AddressableExactly | src/meshelle/room/server.py:908-924 | A path can be sent over if and only if a packet with it can be built |
| RoomSteps.ExpiredExactly | src/meshelle/room/server.py:1121-1136 | A slot is cleared at its time, at the cost of one failure, and not before |
| RoomSteps.ReloadedExactly | src/meshelle/room/server.py:297-315 | The role of each session after a reload, case by case |
| RoomSteps.ResumedInOrder | src/meshelle/room/server.py:247-272 | A restart opens a session for each usable key, in the order listed |
| Acl.MatchedExactly | src/meshelle/room/acl.py:107-124 | A password grants the role of its first declaration; a blank one none |
| Acl.ResolvedExactly | src/meshelle/room/acl.py:67-86 | Membership first, then password, then the policy for strangers, then nothing |
| Acl.WithoutPasswordIsBlank | src/meshelle/room/acl.py:89-104 | A client known from the database gets what a blank password would, and at least a guest's role |
| Acl.RoleBytes | src/meshelle/proto/constants.py:169-172 | The permission byte of each role, and that posting takes 2 or more |
| RoomEdges.SurvivesExactly | src/meshelle/room/server.py:585-599 | A client survives the storing of a post if and only if retention is off, its last login is recent enough, or a push to it is in flight |
| RoomEdges.SurvivesStartExactly | src/meshelle/room/server.py:238-245 | And a start if and only if retention is off or its last login recent enough |
| RoomEdges.OnlyLoginTouchesActivity | src/meshelle/store/repo.py:274-277 | No event other than a login changes the last activity or last timestamp of a row that remains |
| RoomWitness.OwedClientForgotten | src/meshelle/config/model.py:324-332 | A run from an empty database in which a client owed a post and heard a second ago is forgotten |
| RoomWitness.LongPathEndsTheProcess | src/meshelle/proto/packet.py:478-497 | A run from an empty database, of two clients, whose next push step raises |
| RoomWitness.RaisesAfterRestart | src/meshelle/room/server.py:230-273 | After a restart the turn of a client with a path too long and a settled post owed raises again |
| RoomEdges.AckedTextStoredExactly | src/meshelle/room/server.py:545-577 | An acknowledged plain text has been added to the history if and only if its timestamp was new to the session and its text not empty |
| RoomEdges.RequestSwallowsText | src/meshelle/room/server.py:644-657 | A text with the timestamp of a request before it is acknowledged and not stored |
| RoomEdges.NegativeRetentionRepeatsTimestamp | src/meshelle/store/repo.py:93-105 | With any negative retention two posts at one clock reading get the same timestamp |
| RoomEdges.TimestampsRiseExactly | src/meshelle/config/model.py:66-72 | In a room where someone can post, timestamps rise strictly in every run if and only if the post retention is not negative |
| RoomInvariant.LoginKeeps | src/meshelle/room/server.py:357-429 | A login, granted, refused or replayed, keeps the invariant: the claim it makes opens a fresh account of what is acknowledged |
| RoomInvariant.OnTextKeeps | src/meshelle/room/server.py:498-577 | So does a text message or console line, with the post it may store |
| RoomInvariant.StorePostKeeps | src/meshelle/room/server.py:579-606 | So does storing a post with both retention policies, each on its own clock reading: no row that survives loses a post above its cursor, no client in flight is forgotten, no session outlives its row |
| RoomInvariant.NextPostTsIsNew | src/meshelle/store/repo.py:93-105 | The timestamp of a new post is above every one ever given out, for any clock reading |
| RoomInvariant.OnRequestKeeps | src/meshelle/room/server.py:644-724 | A request keeps the invariant, including a keep-alive that forces the cursor forwards or backwards |
| RoomInvariant.OnPathReturnKeeps | src/meshelle/room/server.py:781-811 | So does a path return, with the acknowledgement it may carry |
| RoomInvariant.OnAckKeeps | src/meshelle/room/server.py:813-842 | So does a bare acknowledgement, matched or not |
| RoomInvariant.PushOnceKeeps | src/meshelle/room/server.py:1024-1136 | So does a push step, with the expiries before it, also when building the packet raises |
| RoomInvariant.ApplySettingsKeeps | src/meshelle/room/server.py:297-315 | So does a reload of the settings |
| RoomInvariant.RestartKeeps | src/meshelle/room/server.py:230-273 | So does a restart, whatever order the database lists its clients in |
| RoomServer.Room.Login | src/meshelle/room/server.py:357-429 | The in-place login is the login step, and adds at most a new session at the end of the table |
| RoomServer.Room.Admit | src/meshelle/room/server.py:409-430 | A granted login overwrites exactly the fields the step names |
| RoomServer.Room.OnText | src/meshelle/room/server.py:498-543 | The in-place handler is the text step, acknowledgement included |
| RoomServer.Room.AcceptPost | src/meshelle/room/server.py:545-577 | Storing, and whether to acknowledge, as in the step: refused roles get neither, retries only the acknowledgement |
| RoomServer.Room.RunConsole | src/meshelle/room/server.py:608-629 | A console line has an effect once, and for admins only |
| RoomServer.Room.StorePost | src/meshelle/room/server.py:579-606 | The transaction and the dropping of forgotten sessions are the store step, each clock reading its own, with the next timestamp returned |
| RoomServer.Room.AddAndPrune | src/meshelle/room/server.py:585-599 | The transaction: the post is added, clients are pruned, and posts are pruned against the rows left |
| RoomServer.Room.PruneClients | src/meshelle/room/server.py:275-285 | Clients with a push in flight are kept, and the keys returned are those gone |
| RoomServer.Room.ForgetSessions | src/meshelle/room/server.py:287-295 | The table without the forgotten clients, the others untouched and in order |
| RoomServer.Room.OnRequest | src/meshelle/room/server.py:644-669 | The in-place handler is the request step |
| RoomServer.Room.OnKeepAlive | src/meshelle/room/server.py:671-724 | Cursor forced in memory and on disk, slot cleared, and the answer over a known path carries the hash of nine bytes and the count owed, at most 255 |
| RoomServer.Room.OnPathReturn | src/meshelle/room/server.py:781-811 | The in-place handler is the path-return step |
| RoomServer.Room.OnAck | src/meshelle/room/server.py:813-842 | The scan credits the first session waiting for the checksum, and reports a match if and only if there is one |
| RoomServer.Room.ExpirePendingAcks | src/meshelle/room/server.py:1121-1136 | Exactly the overdue slots are cleared, each at the cost of one failure |
| RoomServer.Room.PushOnce | src/meshelle/room/server.py:1024-1077 | The in-place push step is the step on values, with outcome and packet |
| RoomServer.Room.Push | src/meshelle/room/server.py:1098-1119 | The slot is armed before the packet is built, so also when that raises |
| RoomServer.Room.ApplySettings | src/meshelle/room/server.py:297-315 | Members are re-resolved at once, former members fall back, password roles stay |
| RoomServer.Room.Start | src/meshelle/room/server.py:230-273 | From the database alone, the loop rebuilds the session table the restart step gives |
| RoomServer.Room.ReceiveLogin | src/meshelle/room/server.py:340-355 | The program's login is the login event of a run and keeps the invariant |
| RoomServer.Room.ReceiveText | src/meshelle/room/server.py:462-486 | So is its handling of a decrypted text |
| RoomServer.Room.ReceiveRequest | src/meshelle/room/server.py:462-486 | Of a decrypted request |
| RoomServer.Room.ReceivePath | src/meshelle/room/server.py:462-486 | Of a decrypted path return |
| RoomServer.Room.ReceiveAck | src/meshelle/room/server.py:319-324 | Of a bare acknowledgement |
| RoomServer.Room.PushStep | src/meshelle/room/server.py:1005-1022 | Its push step |
| RoomServer.Room.Reload | src/meshelle/room/server.py:297-315 | Its reload |
| RoomServer.Room.Restart | src/meshelle/room/server.py:230-273 | And its start on the database a previous process left |
| RoomServer.Store.PrunePosts | src/meshelle/store/repo.py:186-234 | The loop over the table with the lowest cursor as floor keeps exactly what comparing with every cursor keeps; of a table in order it keeps an end, and removes nothing above any cursor |
| RoomServer.Store.Floor | src/meshelle/store/repo.py:206-206 | The least cursor of all rows, attained by one of them; none when there are none |
| RoomServer.Store.PruneClients | src/meshelle/store/repo.py:371-424 | The rows kept, and that the keys returned are exactly those removed |
| RoomServer.Store.RecordLogin | src/meshelle/store/repo.py:246-283 | Every field of the row written, the replay guard and the first sight among them, and no other row changed |
| RoomServer.Store.AdvanceSync | src/meshelle/store/repo.py:297-311 | No row comes or goes and no other one changes; the cursor of this one becomes the newer of what it was and the post's |
| Repo.AcksInAnyOrder | src/meshelle/store/repo.py:297-311 | Acknowledgements late, repeated or out of order leave the cursor at the newest post among them |
| RoomServer.Store.ForceSyncSince | src/meshelle/store/repo.py:314-328 | No row comes or goes and no other one changes; the cursor of this one becomes the claim, backwards or not |
| Repo.LastClaimCounts | src/meshelle/store/repo.py:314-328 | A claim overrides every acknowledgement and claim before it |
| RoomServer.Store.SetOutPath | src/meshelle/store/repo.py:286-294 | No row comes or goes and no other one changes; this one gets the path and keeps the rest |
| Repo.PathMovesNoCursor | src/meshelle/store/repo.py:286-294 | A learned path changes no client's cursor or last activity, nor what pruning may remove |
| Repo.PruneDropsPrefix | src/meshelle/store/repo.py:186-234 | However the two policies combine, the posts removed are a prefix of the table, each removed post being doomed by a policy and at or below every cursor in the room, and no kept one being so |
| Repo.PrunedExactly | src/meshelle/store/repo.py:186-234 | A post goes if and only if it is too old or beyond the count, and at or below every cursor |
| Repo.NextUnsyncedIsOldestOwed | src/meshelle/store/repo.py:127-154 | The post selected is the oldest one owed, once it has settled; nothing is selected before |
| Repo.NextPostTs | src/meshelle/store/repo.py:93-105 | Not before the clock, above every stored timestamp, and one of those two bounds |
| Sync.OwedAfterOldest | src/meshelle/store/repo.py:157-174 | Moving the cursor to the oldest owed post leaves exactly the others owed |
| Sync.SelectUpToOldestOwed | src/meshelle/room/server.py:830-835 | That move takes in that post and no other |
| Packet.DecodeInvertsEncode | src/meshelle/proto/packet.py:175-183 | Decoding an encoded packet gives it back, transport codes aside on routes without them |
| Packet.EncodeInvertsDecode | src/meshelle/proto/packet.py:184-243 | Any bytes that decode give a valid packet that encodes to exactly those bytes |
| Packet.ProtocolCodes | src/meshelle/proto/constants.py:91-124 | The numbers of the routes, payload types and text types |
| Packet.FrameLayout | src/meshelle/proto/packet.py:159-183 | Every byte of an encoded packet before its path |
| Packet.TextLayout | src/meshelle/proto/packet.py:344-347 | Every byte of an encoded text before the text |
| Packet.BodyLayouts | src/meshelle/proto/packet.py:412-475 | The order of the fields of logins, requests and path returns |
| Bytes.LittleEndian | src/meshelle/proto/packet.py:175-183 | The wire integers are their bytes, least significant first |
| Packet.CStringTrimsPadding | src/meshelle/proto/packet.py:106-114 | A NUL-free field is recovered from under any zero padding |
| Packet.SignedTextSurvivesPadding | src/meshelle/proto/packet.py:344-372 | A signed text survives padding whatever bytes, zeros included, its author prefix holds |
| Packet.PlainTextSurvivesPadding | src/meshelle/proto/packet.py:344-372 | Plain and console texts likewise |
| Packet.DecodedBodyNulFree | src/meshelle/proto/packet.py:349-386 | No decoded message body holds a NUL |
| Packet.RequestInverse | src/meshelle/proto/packet.py:437-446 | Requests decode and encode back to the same bytes |
| Packet.LoginSurvivesPadding | src/meshelle/proto/packet.py:412-424 | A login with a NUL-free password survives padding |
| Packet.PathReturnRoundTrip | src/meshelle/proto/packet.py:473-497 | Decoding an encoded path return gives it back |
| Packet.PathReturnInverse | src/meshelle/proto/packet.py:478-497 | A decoded path return is valid, and encodes to the same bytes, or to them and the marker byte when they ended with the path |
| Crypto.Primitives.OpenInvertsSeal | src/meshelle/proto/crypto.py:121-157 | Opening what was sealed gives the plaintext, zero-padded to a whole block |
| Crypto.SealedLengthIs | src/meshelle/proto/crypto.py:121-131 | Sealing n bytes takes the MAC and n rounded up to a block |
| Crypto.Primitives.SealedExactly | src/meshelle/proto/crypto.py:121-131 | What is sealed is the tag and the ciphertext of the plaintext with the fewest zeros that fill a block |
| Crypto.Primitives.OpensExactly | src/meshelle/proto/crypto.py:134-157 | Whole blocks under their own tag open, and nothing else does |
| Frames.DatagramFits | src/meshelle/proto/packet.py:83-103 | A datagram of n plaintext bytes over a p-byte path can be transmitted if and only if n is at most `max_plaintext_len(p)` |
| Frames.PushFits | src/meshelle/room/posts.py:63-94 | Every push fits, direct or flooded, for any path of at most 64 bytes |
| Frames.PushIsLongest | src/meshelle/room/posts.py:63-94 | A push takes the longest prefix of its text that can be sent: with one more code point the text passes 151 bytes or the datagram cannot be transmitted |
| Frames.PushedWhole | src/meshelle/room/posts.py:63-94 | A text that leaves room is pushed whole, so every stored post is to a client with no known path |
| Frames.ConsoleReplyFits | src/meshelle/room/server.py:887-906 | So does every console reply |
| Frames.AccessListReply | src/meshelle/room/server.py:754-777 | The loop lists the first 13 members, each as key prefix and permission |
| Frames.DirectResponseFits | src/meshelle/room/server.py:877-881 | Login, status and access-list responses fit over any path of at most 64 bytes |
| Frames.BundleFits | src/meshelle/room/server.py:858-875 | A response bundled into a flooded path return fits if and only if path and payload and two bytes make at most 160 |
| Frames.BundledResponsesFit | src/meshelle/room/server.py:849-875 | Bundled login and status responses always fit; an access list does unless it is full and the path is 64 bytes long |
| Frames.AckAgreement | src/meshelle/proto/packet.py:388-395 | Sealing, opening and decoding a push of NUL-free text gives the client a message with the same acknowledgement hash |
| Posts.ClientReadsPush | src/meshelle/room/posts.py:68-94 | The padded push decodes to the message whose encoding the room hashed, for any author key |
| Posts.ReadBackExactly | src/meshelle/room/posts.py:68-94 | The client's decoding of a padded push encodes back to what was hashed if and only if the text sent holds no NUL |
| Posts.PostTextDecodes | src/meshelle/room/posts.py:53-60 | The truncated bytes of a post decode strictly, to the text stored |
| Posts.WelcomeChunksFit | src/meshelle/room/posts.py:97-107 | A welcome that is not blank is split without loss into non-empty chunks that no return path makes shorter |
| Posts.BlankWelcome | src/meshelle/room/posts.py:105-106 | A blank welcome gives no chunks |
| TextSplit.Utf8Truncate | src/meshelle/proto/text.py:33-47 | The loop ends on the encoding of the longest prefix of whole code points that fits |
| TextSplit.FitIsLongest | src/meshelle/proto/text.py:33-47 | A prefix fits if and only if it is no longer than the one taken |
| TextSplit.Utf8Split | src/meshelle/proto/text.py:50-83 | The loop gives the encoded chunks of the specification, or its error |
| TextSplit.SplitKeepsText | src/meshelle/proto/text.py:50-83 | The chunks, with the dropped spaces put back at the cuts, are the text |
| TextSplit.SplitCutsWell | src/meshelle/proto/text.py:50-83 | Every chunk is non-empty and within the limit, none after the first starts with a space, and a cut that drops no space is made only where nothing more would have fitted |
| TextSplit.ChunkEndsWell | src/meshelle/proto/text.py:72-81 | Every chunk ends at the end of the text, or at the last space that leaves it half full, or where nothing more fits, and all spaces after it are skipped |
| TextSplit.SplitFailsExactly | src/meshelle/proto/text.py:66-72 | Splitting fails if and only if some code point is longer than the limit, so never from four bytes up |
| Utf8.DecodeInvertsEncode | src/meshelle/proto/text.py:72-72 | The strict decoder inverts the encoder on every text |
| Utf8.EncodeInvertsDecode | src/meshelle/proto/text.py:72-72 | And accepts only what the encoder produces |
| Utf8.KnownEncodings | src/meshelle/proto/text.py:38-38 | The encodings at both ends of every length |
| Utf8.EncodedLength | src/meshelle/proto/text.py:38-38 | How many bytes each code point takes |
| SeenTable.HoldsExactlyRecent | src/meshelle/mesh/dedupe.py:92-110 | An expired table holds a hash if and only if it was last marked less than `ttl` ago and fewer than `capacity` other hashes were marked since |
| SeenTable.LastMarkOf | src/meshelle/mesh/dedupe.py:78-90 | The place of a hash in the table says when it was last marked and which hashes have been since |
| SeenTable.Table.Expire | src/meshelle/mesh/dedupe.py:104-110 | The loop removes stale entries only, and leaves fresh ones only |
| SeenTable.Table.Mark | src/meshelle/mesh/dedupe.py:78-90 | A mark joins the history, and the table still stands for it within its capacity |
| SeenTable.Table.CheckAndMark | src/meshelle/mesh/dedupe.py:92-102 | The answer is the declarative window over all marks ever made, and the hash is marked either way |
| Dispatcher.OfferedOnlyOutsideWindow | src/meshelle/mesh/dispatcher.py:180-210 | In every history, a packet sent or received before is offered to rooms again only once every mark of it is `ttl` old or `capacity` other packets have been marked since the last one |
| Dispatcher.CountersBalance | src/meshelle/mesh/dispatcher.py:166-208 | The counters count every packet once, by direction and route, and duplicates among the received |
| Dispatcher.CountersExactly | src/meshelle/mesh/dispatcher.py:166-208 | Each counter is the number of events of its kind |
| Dispatcher.AddressedExactly | src/meshelle/mesh/dispatcher.py:228-256 | By code and length: which packets are for every room, which for the rooms at their first byte, which for none |
| Dispatcher.Dispatcher.constructor | src/meshelle/mesh/dispatcher.py:119-136 | The index built by the loop holds, for every address, the rooms at it in order |
| Dispatcher.Dispatcher.AddRoom | src/meshelle/mesh/dispatcher.py:138-147 | The index still agrees with the list of rooms |
| Dispatcher.Dispatcher.Send | src/meshelle/mesh/dispatcher.py:151-176 | A packet is marked and counted whenever its bytes are handed on |
| Dispatcher.Dispatcher.Dispatch | src/meshelle/mesh/dispatcher.py:180-210 | A malformed packet changes nothing but the error count; a recent one is offered to nobody; any other is offered to its addressees in turn, up to the first that claims it |
| Dispatcher.Dispatcher.Route | src/meshelle/mesh/dispatcher.py:212-226 | The rooms asked are the addressees up to the first that claims, or all of them if none does |
| Dispatcher.Dispatcher.Candidates | src/meshelle/mesh/dispatcher.py:228-256 | Looking the address up in the index gives exactly the rooms at it, and all rooms for an acknowledgement |
| Link.EveryRunConserves | src/meshelle/companion/link.py:527-548 | Across any disconnects and reconnects: what was queued is, in order, what was sent or dropped and then what is still queued; no write begins after the item expired and nothing is dropped before; a sleeping loop with work has its wakeup on the way |
| Link.FailedWriteIsRetried | src/meshelle/companion/link.py:541-546 | A connection lost in the middle of a write leaves the item at the head, and the next connection begins with it if it is still in time |
| Link.Drains | src/meshelle/companion/link.py:527-548 | Left alone, the loop deals with every queued item once, in order, by its expiry, and then sleeps on an empty queue |
| Link.CompanionLink.SendPacket | src/meshelle/companion/link.py:280-309 | The two refusals, which change nothing; otherwise the item is queued last with its expiry and the event set |
| Link.CompanionLink.SendLoopTurn | src/meshelle/companion/link.py:527-544 | One turn of the loop is the step of the queue, and writes the head's bytes if any |
| Link.CompanionLink.WriteReturns | src/meshelle/companion/link.py:541-548 | A completed write takes the head off the queue |
| Link.CompanionLink.Disconnects | src/meshelle/companion/link.py:370-390 | The end of a connection, in the middle of a write or not, leaves queue, event and record as they are |
| Link.CompanionLink.Supervise | src/meshelle/companion/link.py:323-360 | Each sleep is the minimum delay doubled once per short connection since the last long one, capped; when the loop ends, and how |
| Link.SleepsFollow | src/meshelle/companion/link.py:349-360 | The first sleep, and the one after a long connection, is the minimum; any other twice the one before, capped |
| Link.DelayInBounds | src/meshelle/companion/link.py:350-360 | Every delay lies between the minimum and the maximum |
| Ed25519.SumIsExtended | src/meshelle/proto/ed25519_expanded.py:70-79 | Whatever is added, the sum keeps X Y = Z T modulo P |
| Ed25519.SumIsOnCurve | src/meshelle/proto/ed25519_expanded.py:70-79 | The sum of two points of the curve is a point of the curve, for any curve constant |
| Ed25519.SumIsEdwardsSum | src/meshelle/proto/ed25519_expanded.py:70-79 | In affine coordinates the sum is the Edwards sum x3 = (x1 y2 + x2 y1) / (1 + d x1 x2 y1 y2), y3 = (y1 y2 + x1 x2) / (1 - d x1 x2 y1 y2), cross-multiplied |
| Ed25519.ScalarMult | src/meshelle/proto/ed25519_expanded.py:82-96 | The loop computes the double-and-add specification |
| Ed25519.DoubleAndAddIs | src/meshelle/proto/ed25519_expanded.py:82-96 | In any group, every round keeps the point on the curve, and the result stands for the start plus the scalar multiple |
| Ed25519.MultipleIs | src/meshelle/proto/ed25519_expanded.py:82-96 | Double-and-add computes the scalar multiple, as repeated addition defines it |
| Ed25519.ClampScalar | src/meshelle/proto/ed25519_expanded.py:107-119 | The edits in place are the clamping, and a wrong length is refused |
| Ed25519.ClampedScalar | src/meshelle/proto/ed25519_expanded.py:107-119 | As a number, clamping keeps bits 3 to 253, sets bit 254, and clears the rest: a multiple of 8 from 2^254 up to 2^255 |
| Ed25519.Scheme.EncodedFields | src/meshelle/proto/ed25519_expanded.py:99-104 | The encoding of a point gives back its y and the parity of its x, each times the inverse of Z |
| Ed25519.Scheme.EncodedAffine | src/meshelle/proto/ed25519_expanded.py:99-104 | Where the inverse is one, the two numbers encoded are the affine coordinates: times Z they give X and Y modulo P |
| Ed25519.Scheme.SignatureVerifies | src/meshelle/proto/ed25519_expanded.py:144-168 | Every signature under the signer's own public key satisfies what a verifier checks, all hashes written out: its S is below L and [S]B = R + [k]A with k the hash of R, A and the message, R the multiple by the hash of the prefix and the message, A by the clamped first half |
| Ed25519.Scheme.BadKeysRefused | src/meshelle/proto/ed25519_expanded.py:136-160 | Keys of a wrong length, and only those, are refused |
| Ed25519.Scheme.SigningEquation | src/meshelle/proto/ed25519_expanded.py:164-168 | [(r + k a) mod L]B = [r]B + [k][a]B for a base point of order L |
| Dotenv.ParseDotenv | src/meshelle/config/dotenv.py:118-154 | The loop gives the entries of the specification or its error with the line, and no name twice |
| Dotenv.ReadValue | src/meshelle/config/dotenv.py:157-187 | The loop over further lines gives the value and how many it took, or the error |
| Dotenv.FindClosingQuote | src/meshelle/config/dotenv.py:190-200 | The scan finds the first quote that is not escaped |
| Dotenv.UnescapeText | src/meshelle/config/dotenv.py:203-217 | The scan replaces every escape, unknown ones excepted |
| Dotenv.ParsedNames | src/meshelle/config/dotenv.py:118-154 | In any file that parses, names are proper and distinct, and line numbers rise |
| Dotenv.ReloadForgetsHistory | src/meshelle/config/dotenv.py:248-284 | After any sequence of loads, each given what the one before applied, the environment and the report are as if only the last file had been loaded |
| Dotenv.TakenBack | src/meshelle/config/dotenv.py:263-276 | Taking back the names a load applied restores the environment it found |
| Dotenv.LoadedNames | src/meshelle/config/dotenv.py:266-276 | A load adds exactly the names the environment lacked, changes none it had, and reports which is which |
| Dotenv.LoadedValue | src/meshelle/config/dotenv.py:270-276 | And each name it adds has the value the file gives it |
| Dotenv.Environment.ApplyDotenv | src/meshelle/config/dotenv.py:248-284 | The loops over owned names and entries leave the environment, and report, what the specification says |
| DotenvText.WrittenThenRead | src/meshelle/config/dotenv.py:118-187 | A file of distinct proper names with quoted, escaped values parses back to exactly those values if and only if none holds a line boundary other than newline and return |
| DotenvText.ParsedCarried | src/meshelle/config/dotenv.py:157-217 | No file yields a value with any other line boundary |
| DotenvText.UnescapeInvertsEscape | src/meshelle/config/dotenv.py:203-217 | Unescaping undoes escaping on every text |
| DotenvCases.SplitLinesExactly | src/meshelle/config/dotenv.py:120-120 | A text is its lines and their ends, no boundary inside a line and no return taken apart from its newline |
| DotenvCases.CharacterClasses | src/meshelle/config/dotenv.py:53-53 | What ends a line and what names are made of |
| DotenvCases.SpaceClass | src/meshelle/config/dotenv.py:55-57 | What counts as a space |
| DotenvCases.SkippedExactly | src/meshelle/config/dotenv.py:130-131 | Blank lines and comments say nothing |
| DotenvCases.ExportDropped | src/meshelle/config/dotenv.py:133-133 | `export` and the spaces after it go |
| DotenvCases.OnlyExportDropped | src/meshelle/config/dotenv.py:133-133 | And nothing else does |
| DotenvCases.AssignmentExactly | src/meshelle/config/dotenv.py:135-148 | Which lines are errors, and what the others assign |
| DotenvCases.SecondIsRefused | src/meshelle/config/dotenv.py:143-148 | The second assignment to a name is an error that names the line of the first |
| DotenvCases.UnquotedExactly | src/meshelle/config/dotenv.py:164-167 | An unquoted value ends before the first comment and is stripped |
| DotenvCases.SingleQuoted | src/meshelle/config/dotenv.py:179-182 | Single quotes are literal |
| DotenvCases.AfterTheQuote | src/meshelle/config/dotenv.py:173-178 | After the closing quote only a comment may follow |
| DotenvCases.QuotedOverLines | src/meshelle/config/dotenv.py:184-187 | A quoted value goes on over lines, joined by newlines, or is an error at the end of the file |
| DotenvCases.EscapesExactly | src/meshelle/config/dotenv.py:203-217 | The six escapes, and any other kept with its backslash |
| PyStr.StripExactly | src/meshelle/config/dotenv.py:127-127 | Stripping takes off all spaces at both ends and nothing else |

## Left out

- Finer interleavings of handlers with the push loop, and the pacing of the loop (`_next_push`): steps are atomic and may come in any order.
- Finding the session a datagram is from, by trying the MAC of each candidate: a step names its sender.
- Shared secrets, counters, adverts, the settings loader, and the console commands other than `room.post`: they do not touch what is stated.
- RoomServer.Room.OnRequest: does not model the answers to status and access-list requests, only their sizes (in `Frames`).
- RoomServer.Room.RunConsole: does not model the reply, only what the line does to the room.
- RoomServer.Room.Login: of the login response only its recipient and permission byte are modelled.
- RoomProgress.ServedWithinRound: a run with a fixed set of clients within one process, as the round-robin promise is; a client added or forgotten starts a new round.
- RoomRuns.AtMostOnce: within one session's lifetime only, as the code has it: the row keeps the timestamp of the last login, not of the last message, so the guard is weaker after a restart.
- RoomCatchUp.CatchesUp: takes as given that each answer comes before the slot times out, and that its checksum is not awaited by an earlier session too, since hashes may collide; the set of clients stays the same, so a login of a new client or the forgetting of one ends the run it speaks of.
- Dispatcher.Dispatcher.Dispatch: what a room sends while it handles a packet is a later `Send`; signal strength is not modelled.
- Dispatcher.Dispatcher.Send: hands back the bytes to queue; refusing what exceeds 174 bytes is the link's part.
- Link.EveryRunConserves: a write is one await; whether a frame whose write failed had already left the node is not modelled, so an item may go on the air more than once.
- Link.CompanionLink.Supervise: how each connection ends is given; the handshake, the heartbeat and the receive loop are not modelled, nor are exceptions other than the two kinds the loop names.
- Ed25519.Scheme.SignatureVerifies: the numeric curve constant and base point are parameters, with what is needed of them as hypotheses; point decompression is not modelled.
- Ed25519.Scheme.EncodedFields: the field inverse used in the encoding is a parameter; Fermat's little theorem is not proved.
- Ed25519 `expanded_from_seed`: one hash and one clamping.
- Dotenv.ParseDotenv: starts from decoded text; reading the file, its encoding and its permissions are not modelled.
- Transports, the SQL layer, the event loop, logging, the command line, configuration validation and the application's own reload: plumbing, or easier members.
