# A verified model of memcore

memcore is a Redis-compatible in-memory store: collections that start as flat packs and
promote to linked structures, keyspaces split over locked shards, an append log with
snapshots and crash recovery, and RESP on the wire. This project models those parts in Dafny
and proves what the program is for: that collections keep one abstract value in every form,
that commands on shards behave as on one keyspace and never deadlock, that every flushed
write survives a crash, and that replies and requests arrive as sent. `dafny verify
dfyconfig.toml` verifies all of it.

## Layout

| modules | what they model |
|---|---|
| `ByteStrings` `Varints` `Packs` `Streams` `Decimals` `Limits` `Options` | bytes, integers, length-prefixed elements, stream reading, Redis index ranges |
| `Scores` `Floats` `Rankings` `SkipLists` `ZSets` | sorted sets: scores as IEEE-754 numbers, their order, the skip list with its links, packed and promoted forms |
| `Lists` `Hashes` `Sets` | the other collections, packed and promoted |
| `Commands` `Laws` `Keyspaces` `Databases` `Handlers` `Names` `Registry` | what commands mean, keyspaces with a TTL index, shards, handlers, the command table |
| `Verbs` `Dialogues` | what every command answers and leaves behind, from argument lists and on the stored data itself; requests followed by others |
| `StoredObjects` `Shelves` `ObjectDatabases` | the collection handlers on the stored objects themselves, packed or promoted; a shard and a sharded database that hold such objects |
| `Expiry` `Replays` | whole runs with active expiry; replaying the log when the clock has moved |
| `AppendLog` `Stores` `Durability` `PowerLoss` | the log, the store, crash safety of the records over whole runs, power failure |
| `Serial` `Servers` | log order under concurrency on a moving clock, and whole runs of a server through compactions, crashes and restarts |
| `Clusters` `Restarts` `Revivals` | the command table, handlers and routing as one instance of that server; what each database shows after a restart under a new seed |
| `Locks` `LockPrograms` `Exclusion` | threads, writer-preferring read-write locks, deadlock freedom, and who can be at work on a shard together |
| `Snapshots` `SnapshotCuts` `Captures` `Reloads` | the snapshot format, damaged snapshots, and what a server gets back from one |
| `Framing` `Replies` `NodeClient` `Requests` `RequestForms` | the RESP writer, the Node client's incremental parser, the request reader |
| `Formats` | the bytes of replies, requests, log records and snapshots |

Stateful parts are classes whose methods are proved against functions of the old state; the
laws of those functions, and invariants over whole runs, are lemmas beside them.

## Where the program falls short of a promise

Each of these is kept as the program has it, with a lemma that exhibits the failure and a
lemma that says exactly when the promise holds.

- A reopened segment whose last record is torn loses the next record appended to it, unless
  that record's database number happens to continue the torn byte (`AppendLog.LaterRecordLost`);
  the records appended later are always replayed exactly when the segment ended on a record
  boundary (`AppendLog.ReopenKeepsLaterRecords`). Crash safety therefore assumes it at each
  restart.
- `Rotate` flushes the old segment but does not sync it, so without `always` a power failure
  can leave a hole below flushed writes (`PowerLoss.PowerFailureLeavesAHole`); they survive
  every cut exactly when the rotated segments were synced (`PowerLoss.FlushedWritesSurviveIff`).
- A logged command that builds on its key brings the key back when the key expired before the
  replay (`Replays.ReplayResurrects`), and an EXPIRE off the whole millisecond is replayed with
  an earlier deadline (`Replays.ReplayRounds`); `Replays.ReplayIff` gives the exact condition
  for every command.
- A deadline at the Unix epoch reads back as none (`Captures.EpochKeyRevives`), and one outside
  int64 nanoseconds wraps (`Captures.FarKeyDies`); deadlines survive exactly when the format can
  carry them (`Captures.DeadlineRoundTripIff`, `Captures.CaptureRoundTripIff`). A whole run of the
  server in which a dead key comes back is `Revivals.EpochKeyComesBack`; after a restart the
  databases show what they showed exactly when the captured deadlines come through
  (`Restarts.RecoveredIff`).
- Replacing one floating-point zero by the other changes the stored bits in a packed sorted
  set but not in a promoted one (`ZSets.FormsDifferOnlyAtZero`).
- A simple string or error that holds a line break, such as an unknown command's name, breaks
  the reply stream for the Node client (`Replies.UnknownCommandBreaks`); a reply is read as
  written exactly when no text in it has one (`Replies.ParseExactIff`).

## Model

| member | source | states |
|---|---|---|
| `Varints.UvarintRoundTrip` | internal/value/pack.go:10-29 | a varint header reads back with the bytes after it untouched |
| `Varints.UvarintPrefix` | internal/persistence/codec.go:27-52 | a strict prefix of a varint is seen as cut short, never as a number |
| `Packs.ReadElement` | internal/value/pack.go:19-29 | one turn of the scan yields the next element and leaves the packed rest |
| `Packs.PackSplit` | internal/value/pack.go:10-29 | a pack splits exactly at its element boundaries |
| `Packs.PackInjective` | internal/value/pack.go:10-29 | a pack determines its elements |
| `Limits.NormalizeRange` | internal/value/value.go:79-99 | the span covers exactly the positions between the two resolved indices |
| `Limits.SelectedIsWindow` | internal/value/value.go:79-99 | the selection has one element for each position between the two indices, each from its own place |
| `Scores.LessTrichotomy` | internal/value/zset.go:249-254 | score-then-member order is a strict total order up to equal numbers and members |
| `Scores.NumInjective` | internal/value/zset.go:249-254 | a numeric score fixes the bits except at zero |
| `Scores.LessIsAhead` | internal/value/zset.go:249-254 | first the smaller number; at equal numbers the member that ends first or has the smaller byte where the two first differ |
| `Floats.NumIsValueOrder` | internal/value/zset.go:249-254 | scores compare as the binary64 numbers their bits stand for: sign, exponent and fraction, subnormal numbers and infinities included |
| `Rankings.RankingUnique` | internal/value/zset.go:226-254 | a score map has one ranking |
| `Rankings.RankCounts` | internal/value/zset.go:226-254 | the i-th of a ranking has exactly i members ahead of it |
| `SkipLists.SkipList.Search` | internal/value/zset.go:256-302 | on every level the search stops at the true predecessor of the key's rank |
| `SkipLists.SpliceIn` | internal/value/zset.go:256-278 | linking a new node in on each level it reaches gives the links of the longer list |
| `SkipLists.SpliceOut` | internal/value/zset.go:280-302 | unlinking a node on each level it reaches gives the links of the shorter list |
| `SkipLists.SkipList.Insert` | internal/value/zset.go:256-278 | for any drawn height the pairs become the old ones with the new one at its rank; every level is again the subsequence of nodes tall enough, with length and level exact |
| `SkipLists.SkipList.Delete` | internal/value/zset.go:280-302 | the pair with that score and member is removed if present, nothing else moves, and empty levels are dropped |
| `SkipLists.SkipList.LowerLevel` | internal/value/zset.go:295-302 | levels no node reaches any more are dropped, and only those |
| `SkipLists.SkipList.EachInRank` | internal/value/zset.go:306-315 | exactly the pairs with ranks in the interval, in order |
| `ZSets.FullZSet.Add` | internal/value/zset.go:185-198 | the score map and the skip list stay one ranking through add and update |
| `ZSets.ZSet.CompactAdd` | internal/value/zset.go:108-137 | the rewritten pack spells the ranking of the updated scores |
| `ZSets.ZSet.Promote` | internal/value/zset.go:139-149 | promotion keeps every score, bit for bit |
| `ZSets.ZSet.Add` | internal/value/zset.go:55-65 | packed or promoted, the numeric content gains or replaces exactly this member; a promoted set stays promoted |
| `ZSets.ZSet.Score` | internal/value/zset.go:67-83 | the score the content holds, or none |
| `ZSets.ZSet.Range` | internal/value/zset.go:85-106 | position by position: as many pairs as ranks between the two indices, in ascending order of number and then member, the i-th with exactly lo + i members ahead of it |
| `ZSets.AddAll` | internal/value/zset.go:55-65 | any run of adds, at any thresholds and heights, leaves the last score of each member and counts the members that were new |
| `ZSets.RangesAgree` | internal/value/zset.go:85-106 | sets with the same numeric content answer every range alike |
| `ZSets.RangeByNumbers` | internal/value/zset.go:85-106 | what a range lists is fixed by the numbers alone: each member with its number, at the rank that counts the members ahead |
| `ZSets.TwoListed` | internal/value/zset.go:85-106 | of two members the one with the smaller number is listed first |
| `ZSets.FormsDifferOnlyAtZero` | internal/value/zset.go:108-137 | packed and promoted adds store different bits exactly when one zero replaces the other |
| `Lists.FullList.PushFront` | internal/value/list.go:154-163 | head, tail, both links and length are those of the list with the element in front |
| `Lists.FullList.PushBack` | internal/value/list.go:165-174 | the same at the back |
| `Lists.FullList.PopFront` | internal/value/list.go:176-189 | the first element leaves; links and length stay consistent |
| `Lists.FullList.PopBack` | internal/value/list.go:191-204 | the last element leaves; links and length stay consistent |
| `Lists.FullList.RangeElems` | internal/value/list.go:206-221 | position by position, exactly the elements between the two indices, counted back from the end when negative |
| `Lists.FindLast` | internal/value/list.go:83-103 | the offset scan finds where the last packed element starts and where its bytes lie |
| `Lists.List.PushFront` | internal/value/list.go:46-55 | the sequence gains the element in front, and the list is promoted exactly when a threshold is exceeded |
| `Lists.List.PushBack` | internal/value/list.go:57-66 | the sequence gains the element at the back, and the list is promoted exactly when a threshold is exceeded |
| `Lists.List.PopFront` | internal/value/list.go:68-81 | the first element, or a report that there is none |
| `Lists.List.PopBack` | internal/value/list.go:83-103 | the last element, or a report that there is none |
| `Lists.List.Range` | internal/value/list.go:105-123 | the same in either form |
| `Hashes.Hash.Get` | internal/value/hash.go:42-58 | the map's value for the field, or none |
| `Hashes.Hash.Set` | internal/value/hash.go:60-86 | the map gains or replaces the field, in either form, and a promoted hash stays promoted |
| `Hashes.Hash.Delete` | internal/value/hash.go:88-112 | the map loses the field and the answer says whether it was there |
| `Hashes.Hash.Promote` | internal/value/hash.go:140-151 | promotion keeps the map |
| `Hashes.Hash.Pairs` | internal/value/hash.go:114-128 | every binding once, in either form |
| `Sets.Set.Add` | internal/value/set.go:41-55 | the set gains the member; count and thresholds hold while it is packed |
| `Sets.Set.Remove` | internal/value/set.go:57-78 | the set loses the member and the answer says whether it was there |
| `Sets.Set.Contains` | internal/value/set.go:80-86 | membership, in either form |
| `Sets.Set.Members` | internal/value/set.go:88-98 | every member once |
| `Decimals.IntRoundTrip` | internal/command/strings.go:41-67 | what the server formats it parses back, over all of int64 |
| `Laws.GatherStops` | internal/command/sets.go:82-93 | the first key that holds no set decides SINTER, whatever follows it: no members if it is missing, an error if it holds something else |
| `Laws.PopUndoesPush` | internal/command/lists.go:24-101 | popping what was just pushed at the same end answers it last first and restores the visible keyspace |
| `Laws.FirstInFirstOut` | internal/command/lists.go:24-101 | over any run in which a key is only pushed at the back and popped at the front, amid any other commands and sweeps, what was there and then entered is, in order, what came out and then what is left |
| `Laws.Untouched` | internal/command/command.go:99-172 | over any run of commands on other keys, sweeps included, a key reads as before |
| `Laws.DecrUndoesIncr` | internal/command/strings.go:41-67 | an increment and its opposite leave the number that was there, whenever the first succeeds |
| `Laws.RemUndoesAdd` | internal/command/sets.go:17-61 | removing exactly the new members answers the same count and restores the visible keyspace |
| `Laws.LastFieldWins` | internal/command/hashes.go:17-57 | after any such run HGET answers the value HSET gave last, until the deadline the key had |
| `Laws.GetAfterSet` | internal/command/strings.go:20-34 | after any such run GET answers what SET stored, and SET cleared any deadline |
| `Laws.LastScoreWins` | internal/command/zsets.go:20-113 | after any such run ZSCORE answers the score ZADD gave last, until the deadline the key had |
| `Laws.SInterIsCommon` | internal/command/sets.go:82-119 | SINTER of stored sets answers exactly the members every one of them holds |
| `Laws.DelCountsExisting` | internal/command/keys.go:25-53 | DEL counts what EXISTS counts when no key is named twice |
| `Laws.TtlAfterExpire` | internal/command/keys.go:55-101 | TTL answers the seconds EXPIRE was given; PERSIST takes the deadline away |
| `Keyspaces.Shard.Set` | internal/keyspace/keyspace.go:89-92 | the entry is replaced without a deadline; every key with a deadline stays indexed and every indexed key stored |
| `Keyspaces.Shard.SetEntry` | internal/keyspace/keyspace.go:97-104 | the entry is stored with its deadline and the index keeps its invariant |
| `Keyspaces.Shard.SetExpire` | internal/keyspace/keyspace.go:108-117 | the deadline is set exactly on a live key, and the index keeps its invariant |
| `Keyspaces.Shard.Persist` | internal/keyspace/keyspace.go:120-129 | the deadline is cleared exactly on a live key that has one |
| `Keyspaces.Shard.Take` | internal/keyspace/keyspace.go:133-153 | the key goes even if expired, but only a live one is reported |
| `Keyspaces.Shard.SampleExpired` | internal/keyspace/keyspace.go:159-177 | in any order: examines at most the limit, evicts only expired keys, and all of them once the limit covers the index |
| `Databases.HoldsLookup` | internal/shard/shard.go:55-90 | the routed shard answers for a key as the whole database does |
| `Databases.DB.Lookup` | internal/shard/shard.go:86-90 | a routed lookup is a lookup in one keyspace |
| `Databases.DB.Set` | internal/shard/shard.go:92-93 | only the routed shard changes, and the database as one keyspace gains the entry |
| `Databases.DB.SetExpire` | internal/shard/shard.go:98-99 | only the routed shard changes; the effect is that on one keyspace |
| `Databases.DB.Persist` | internal/shard/shard.go:101-102 | only the routed shard changes; the effect is that on one keyspace |
| `Databases.DB.Delete` | internal/shard/shard.go:104-105 | only the routed shard changes; DEL and UNLINK counts are those of one keyspace |
| `Databases.DB.Flush` | internal/shard/shard.go:109-113 | every shard is emptied |
| `Databases.DB.ExpireShard` | internal/shard/shard.go:201-206 | one shard of a pass, under that lock alone, removes only keys of that shard that had expired at the clock reading it was given, and counts them |
| `Databases.DB.ExpireCycle` | internal/shard/shard.go:200-209 | a pass that nothing interrupts removes only expired keys and counts them; interrupted passes are sequences of `ExpireShard` |
| `Handlers.IncrBy` | internal/command/strings.go:41-67 | on any sharding: the outcome on one keyspace, TTL kept, overflow and bad text refused unchanged |
| `Handlers.Expire` | internal/command/keys.go:55-65 | on any sharding: the outcome on one keyspace, with the duration's 64-bit wrap |
| `Handlers.PExpireAt` | internal/command/keys.go:70-79 | on any sharding: the outcome on one keyspace |
| `Handlers.Persist` | internal/command/keys.go:96-101 | on any sharding: the outcome on one keyspace |
| `Handlers.Delete` | internal/command/keys.go:25-43 | the named keys go and each live one counts once, however often named |
| `Handlers.Exists` | internal/command/keys.go:45-53 | counts every mention of a live key |
| `Handlers.ListPush` | internal/command/lists.go:24-47 | front pushes end up reversed in front, back pushes in order behind; wrong type refused unchanged |
| `Handlers.ListPop` | internal/command/lists.go:52-101 | the popped values in pop order, the rest kept, the key gone when nothing is left, every argument error refused unchanged |
| `Handlers.HSet` | internal/command/hashes.go:17-42 | the last value of each field, and how many fields are new |
| `Handlers.HDel` | internal/command/hashes.go:59-79 | the named fields gone, how many there were, and the key gone when none is left |
| `Handlers.SAdd` | internal/command/sets.go:17-39 | the union, and how many members are new |
| `Handlers.SRem` | internal/command/sets.go:41-61 | the difference, how many members went, and the key gone when none is left |
| `Handlers.SInter` | internal/command/sets.go:82-119 | filtering the smallest set gives the intersection of all of them, or the first bad key's answer |
| `Handlers.Intersect` | internal/command/sets.go:95-118 | starting from the smallest set, in any order, gives the intersection |
| `Handlers.ZAdd` | internal/command/zsets.go:20-60 | one bad score anywhere refuses the whole command before anything changes; otherwise the last score of each member |
| `Handlers.Run` | internal/command/registry.go:89-95 | any command, with any hash and any number of shards, changes only the shards of its keys and has the outcome it has on one keyspace |
| `StoredObjects.Push` | internal/command/lists.go:24-47 | LPUSH and RPUSH on a stored or new list, packed or promoted, have the effect stated on sequences, for any thresholds |
| `StoredObjects.PopOff` | internal/command/lists.go:52-101 | LPOP and RPOP on a stored list take, answer and leave what is stated on sequences, and report when nothing is left |
| `StoredObjects.HSet` | internal/command/hashes.go:17-42 | HSET on a stored or new hash has the effect stated on maps, for any thresholds |
| `StoredObjects.HDel` | internal/command/hashes.go:59-79 | HDEL on a stored hash has the effect stated on maps, and reports when nothing is left |
| `StoredObjects.SAdd` | internal/command/sets.go:17-39 | SADD on a stored or new set has the effect stated on sets, for any thresholds |
| `StoredObjects.SRem` | internal/command/sets.go:41-61 | SREM on a stored set has the effect stated on sets, and reports when nothing is left |
| `StoredObjects.ZAdd` | internal/command/zsets.go:20-60 | ZADD on a stored or new sorted set has the effect stated on numeric scores, for any thresholds and skip list heights |
| `Shelves.Shelf.Push` | internal/command/lists.go:24-47 | on a shard of objects: the list under the key, or a new one, changes as on one keyspace and no other object does |
| `Shelves.Shelf.Pop` | internal/command/lists.go:52-101 | the same for LPOP and RPOP, dropping an emptied list |
| `Shelves.Shelf.LRange` | internal/command/lists.go:103-122 | the stored list answers as its sequence |
| `Shelves.Shelf.LLen` | internal/command/lists.go:124-133 | the stored list answers as its sequence |
| `Shelves.Shelf.HSet` | internal/command/hashes.go:17-42 | the hash under the key, or a new one, changes as on one keyspace and no other object does |
| `Shelves.Shelf.HGet` | internal/command/hashes.go:44-57 | the stored hash answers as its map |
| `Shelves.Shelf.HDel` | internal/command/hashes.go:59-79 | the same for HDEL, dropping an emptied hash |
| `Shelves.Shelf.SAdd` | internal/command/sets.go:17-39 | the set under the key, or a new one, changes as on one keyspace and no other object does |
| `Shelves.Shelf.SRem` | internal/command/sets.go:41-61 | the same for SREM, dropping an emptied set |
| `Shelves.Shelf.ZAdd` | internal/command/zsets.go:20-60 | the sorted set under the key, or a new one, changes as on one keyspace and no other object does |
| `Shelves.Shelf.ZScore` | internal/command/zsets.go:100-115 | the stored sorted set answers as its score map |
| `Shelves.Shelf.ZRange` | internal/command/zsets.go:62-98 | the stored sorted set lists the ranks between the indices, or the error the arguments deserve |
| `Shelves.Shelf.Run` | internal/command/registry.go:89-95 | any of these commands on a shard of objects has the outcome it has on one keyspace |
| `ObjectDatabases.ObjectDB.Run` | internal/shard/shard.go:55-105 | for any hash, number of shards, thresholds and skip list heights, the command changes only the objects of its key's shard and the whole database has the outcome of one keyspace |
| `Registry.Keys` | internal/command/command.go:109-128 | the loop collects every step-th argument between the clamped ends |
| `Registry.DeclaredKeysAreTouched` | internal/command/command.go:109-172 | for every command in the table, the keys hashed to find locks are the keys its handler names |
| `Registry.LockModeIsRight` | internal/command/command.go:99-172 | shared locks exactly for commands that never write, one lock exactly for single-key commands, all locks exactly for FLUSHDB |
| `Registry.AritySuffices` | internal/command/command.go:131-136 | a request that passes its arity rule gives its handler enough arguments |
| `Names.LookupFold` | internal/command/registry.go:54-66 | the folding loop and the table find what the name function gives |
| `Names.NamedIff` | internal/command/registry.go:54-66 | a name finds a command if and only if it is that command's name in some mixture of ASCII cases |
| `Verbs.ArgumentCounts` | internal/command/command.go:131-148 | how many arguments each of the 33 commands takes |
| `Verbs.ReadersAre` | internal/command/command.go:150-172 | which commands only read, and that only FLUSHDB takes the whole database |
| `Verbs.CountRefused` | internal/command/registry.go:81-83 | any other number of arguments is refused and changes nothing |
| `Verbs.GetReplies` | internal/command/strings.go:20-29 | GET: the stored string until the deadline itself, then nil; another kind is an error; nothing changes |
| `Verbs.SetReplies` | internal/command/strings.go:31-34 | SET: OK, the string stored, no deadline left |
| `Verbs.IncrReplies` | internal/command/strings.go:36-67 | INCR and DECR: one more or one less than the stored number, zero when there is none, stored in decimal with the old deadline; the last number overflows |
| `Verbs.IncrRefuses` | internal/command/strings.go:41-56 | text that is no number, and other kinds, are refused and kept |
| `Verbs.DelReplies` | internal/command/keys.go:25-43 | DEL and UNLINK: the number of different live keys named; all named are gone, no other changes |
| `Verbs.ExistsReplies` | internal/command/keys.go:45-53 | EXISTS: the number of mentions of live keys |
| `Verbs.ExpireReplies` | internal/command/keys.go:55-65 | EXPIRE: 1 and a deadline that many seconds on, in 64-bit nanoseconds; 0 without a live key; a bad number is refused |
| `Verbs.PExpireAtReplies` | internal/command/keys.go:70-79 | PEXPIREAT: 1 and that millisecond as deadline, 0 without a live key |
| `Verbs.TtlReplies` | internal/command/keys.go:81-94 | TTL: -2, -1, or the nearest whole second, a half rounding up |
| `Verbs.PersistReplies` | internal/command/keys.go:96-101 | PERSIST: 1 exactly when a live key had a deadline, which is then gone |
| `Verbs.TypeReplies` | internal/command/keys.go:103-109 | TYPE: the name of the kind, or none |
| `Verbs.LPushReplies` | internal/command/lists.go:24-47 | LPUSH: the values in reverse, then the old list; its length; the old deadline |
| `Verbs.RPushReplies` | internal/command/lists.go:24-47 | RPUSH: the old list, then the values in order; its length; the old deadline |
| `Verbs.PushRefuses` | internal/command/lists.go:24-33 | another kind is refused and kept |
| `Verbs.PopReplies` | internal/command/lists.go:52-89 | LPOP and RPOP: the first or last element, the rest kept, an emptied list no key |
| `Verbs.LPopCountReplies` | internal/command/lists.go:52-101 | LPOP with a count: as many as there are up to it, from the front in order |
| `Verbs.RPopCountReplies` | internal/command/lists.go:52-101 | RPOP with a count: from the back, the last first |
| `Verbs.PopRefuses` | internal/command/lists.go:52-78 | what too many arguments, a bad or negative count, no key and another kind answer |
| `Verbs.LRangeReplies` | internal/command/lists.go:103-122 | LRANGE: position by position, the first index before the second |
| `Verbs.LLenReplies` | internal/command/lists.go:124-133 | LLEN: the length, 0 without a key |
| `Verbs.HSetReplies` | internal/command/hashes.go:17-42 | HSET: each named field has the value of its last mention, the others theirs; the number of new fields |
| `Verbs.HSetRefuses` | internal/command/hashes.go:17-27 | an odd number of arguments and another kind are refused |
| `Verbs.HGetReplies` | internal/command/hashes.go:44-57 | HGET: the field's value or nil |
| `Verbs.HDelReplies` | internal/command/hashes.go:59-79 | HDEL: the number of named fields that were there; they are gone, and an emptied hash is no key |
| `Verbs.HDelRefuses` | internal/command/hashes.go:59-67 | another kind is refused and kept |
| `Verbs.HGetAllReplies` | internal/command/hashes.go:81-95 | HGETALL: every field with its value |
| `Verbs.SAddReplies` | internal/command/sets.go:17-39 | SADD: the union, and the number of new members |
| `Verbs.SRemReplies` | internal/command/sets.go:41-61 | SREM: the difference, the number of members that were there, and an emptied set is no key |
| `Verbs.SetRefuses` | internal/command/sets.go:17-50 | another kind is refused and kept |
| `Verbs.SMembersReplies` | internal/command/sets.go:63-80 | SMEMBERS: every member |
| `Verbs.SInterReplies` | internal/command/sets.go:82-119 | SINTER: the members that every named set has |
| `Verbs.SInterStops` | internal/command/sets.go:82-94 | the first key without a set decides: no members, or an error |
| `Verbs.ZAddReplies` | internal/command/zsets.go:20-60 | ZADD: each named member has the number given before its last mention; the number of new members |
| `Verbs.ZAddRefuses` | internal/command/zsets.go:20-46 | an odd number of arguments, any bad score and another kind refuse the whole command |
| `Verbs.ZRangeReplies` | internal/command/zsets.go:62-98 | ZRANGE: the ranks from the first index to the second, with scores when asked |
| `Verbs.ZScoreReplies` | internal/command/zsets.go:100-115 | ZSCORE: the member's number or nil |
| `Verbs.FlushReplies` | internal/command/server.go:41-46 | FLUSHDB: no key is left |
| `Verbs.PlainReplies` | internal/command/server.go:19-72 | PING, SELECT and CONFIG touch no key |
| `Dialogues.SetThenGet` | internal/command/strings.go:20-34 | SET, then anything on other keys and any sweeps, then GET: the value |
| `Dialogues.IncrThenGet` | internal/command/strings.go:20-67 | INCR answers the next number, and GET later answers it in decimal until the key's deadline |
| `Dialogues.DecrThenGet` | internal/command/strings.go:20-67 | the same one below for DECR |
| `Dialogues.ExpireThenGet` | internal/keyspace/entry.go:21-23 | after EXPIRE a value is read exactly before the seconds are over, at any instant and over any run that spares the key |
| `Dialogues.PExpireAtThenGet` | internal/keyspace/entry.go:21-23 | the same for the millisecond PEXPIREAT names |
| `Dialogues.PersistThenGet` | internal/command/keys.go:96-101 | after PERSIST a live value is read for good |
| `Dialogues.DelThenAsk` | internal/command/keys.go:25-43 | a deleted key is gone, for GET, TTL and TYPE |
| `Dialogues.LPushThenPop` | internal/command/lists.go:24-101 | after LPUSH, LPOP answers the last value pushed and RPOP the oldest |
| `Dialogues.RPushThenPop` | internal/command/lists.go:24-101 | after RPUSH, RPOP answers the last value pushed and LPOP the oldest |
| `Dialogues.PushThenRange` | internal/command/lists.go:24-122 | three values pushed at either end and stretches of them by position, down to the digits of the indices |
| `Dialogues.HSetThenGet` | internal/command/hashes.go:17-57 | HSET then HGET: the value until the key's deadline |
| `Dialogues.HDelThenGet` | internal/command/hashes.go:44-79 | HDEL then HGET: nil |
| `Dialogues.SAddThenMembers` | internal/command/sets.go:17-80 | SADD then SMEMBERS: old and new members |
| `Dialogues.SRemThenMembers` | internal/command/sets.go:41-80 | SREM then SMEMBERS: the others |
| `Dialogues.ZAddThenScore` | internal/command/zsets.go:20-115 | ZADD then ZSCORE: the number until the key's deadline |
| `Dialogues.ZAddThenRange` | internal/command/zsets.go:20-98 | two members added and ranked: the smaller number comes first |
| `Dialogues.FlushThenAsk` | internal/command/server.go:41-46 | after FLUSHDB no key answers |
| `Expiry.ExecAlike` | internal/keyspace/keyspace.go:42-48 | commands answer alike on keyspaces that differ only in expired entries, and leave them so |
| `Expiry.ExpiryInvisible` | internal/expiry/expiry.go:61-76 | over every run in which no command reads an older clock than an event before it, sweeps change no reply, even a sweep whose clock reading is older than commands that ran before it; each shard a pass sweeps is an event of its own |
| `Expiry.ErrorChangesNothing` | internal/server/conn.go:124-148 | an error reply leaves the keyspace as it was, so it need not be logged |
| `Expiry.NeverEmpty` | internal/command/lists.go:24-101 | no reachable state stores an empty list, hash, set or sorted set |
| `Replays.ReplayIff` | internal/server/conn.go:155-163 | for every command, failing ones included: replaying its log form reproduces what can be seen if and only if the key it builds on is still alive and EXPIRE loses nothing to rounding |
| `Replays.ReplayFaithful` | internal/server/server.go:292-298 | over every run of such steps, the replayed log gives the visible state the live run gives, from any indistinguishable start |
| `Replays.ReplayAllFaithful` | internal/server/server.go:292-298 | the same when every command of the run is replayed, logged or not |
| `Replays.SnapshotThenReplay` | internal/server/server.go:350-366 | whatever a snapshot taken after any command of such a run restores, if it looks the same by then, plus the log since gives the visible state of the whole run |
| `Replays.SteadyRunReproduced` | internal/command/keys.go:55-79 | a whole run with the same liveness at run and replay, one whole-millisecond clock reading per command and no duration overflow is reproduced |
| `Replays.LoggedExpire` | internal/server/conn.go:155-163 | a logged EXPIRE parses back to the absolute millisecond deadline |
| `Replays.ReplayResurrects` | internal/server/server.go:292-298 | an INCR replayed after its key expired brings the key back |
| `Replays.ReplayRounds` | internal/server/conn.go:155-163 | an EXPIRE off the whole millisecond is not reproduced |
| `AppendLog.WriteCommand` | internal/persistence/appendlog.go:191-204 | the encoding loop appends exactly one record |
| `AppendLog.CommandRoundTrip` | internal/persistence/appendlog.go:191-224 | a record reads back whole and leaves the bytes after it |
| `AppendLog.CommandPrefix` | internal/persistence/appendlog.go:206-224 | no strict prefix of a record reads as a record or as corruption |
| `AppendLog.ReplaySegment` | internal/persistence/recover.go:58-86 | the loop hands over every whole record and stops cleanly at a torn one |
| `AppendLog.TornTail` | internal/persistence/recover.go:58-86 | any byte prefix of a segment replays to exactly the records wholly inside it |
| `AppendLog.ReopenKeepsLaterRecords` | internal/persistence/appendlog.go:67-78 | however the last record was cut, all records with arguments that are appended later for its database are replayed behind the whole ones if and only if the cut fell on a record boundary |
| `AppendLog.LaterRecordLost` | internal/persistence/appendlog.go:67-78 | after any torn bytes, the next record is not replayed, whatever it and its successors are, unless its database number ends in the first torn byte's low bits |
| `Stores.Store.Open` | internal/persistence/appendlog.go:48-61 | the store opens at the highest generation present, or the snapshot's base |
| `Stores.Store.HighestSegment` | internal/persistence/appendlog.go:176-189 | the largest generation in the directory, zero for none |
| `Stores.Store.Append` | internal/persistence/appendlog.go:88-98 | the record's bytes join the buffer, and the file under `always` |
| `Stores.Store.Flush` | internal/persistence/appendlog.go:102-113 | everything buffered reaches the active segment and is synced |
| `Stores.Store.Rotate` | internal/persistence/appendlog.go:129-142 | the buffer is written, not synced, and the next segment opened |
| `Stores.Store.InstallSnapshot` | internal/persistence/appendlog.go:147-174 | the snapshot is replaced and exactly the segments below its base removed |
| `Stores.Store.ReplaySegments` | internal/persistence/recover.go:45-56 | every segment from the base up, in order, stopping at a failure |
| `Serial.TickKeepsLogOrder` | internal/server/conn.go:96-150 | the passing of time keeps the log order, judged by what can be seen at the current instant |
| `Serial.RunKeepsLogOrder` | internal/server/conn.go:96-131 | running a command under its locks, at the instant it reads, keeps the log order |
| `Serial.AppendKeepsLogOrder` | internal/server/conn.go:124-131 | logging it before the locks are released keeps the log order, however much later and whatever others logged meanwhile |
| `Serial.ExpireKeepsLogOrder` | internal/shard/shard.go:200-209 | sweeping a shard that no command holds keeps the log order, even by an older clock reading |
| `Serial.QuiescentMatchesLog` | internal/server/server.go:350-366 | with every lock held, the live shards show the fold of the log |
| `Durability.StepKeeps` | internal/persistence/appendlog.go:48-174 | every step of logging, spilling, flushing, compaction, crashes and reopening keeps the segments consecutive stretches of the log |
| `Durability.CrashSafety` | internal/persistence/recover.go:20-56 | at every moment of every run, recovery succeeds and replays exactly the records after the snapshot of a prefix of the log that holds every flushed one: none lost, none twice |
| `Durability.LogIsAppended` | internal/persistence/appendlog.go:82-98 | until a restart the log is the appended records, in order |
| `Durability.FlushedSurvives` | internal/persistence/appendlog.go:100-113 | whatever was logged before a flush is recovered, wherever any later run of appends, compactions, crashes and restarts stops |
| `Servers.StepKeeps` | internal/server/server.go:267-366 | commands, time, sweeps, compaction, crashes and restarts under a new seed keep the invariant that ties live shards, log and snapshots together |
| `Servers.LogOrderSerialises` | internal/server/conn.go:96-150 | in every run, a shard no thread holds between run and append shows what the replayed and logged commands give it one after another, each at the instant it ran |
| `Servers.CrashSafety` | internal/server/server.go:267-305 | at every moment of every run, the snapshot was captured from shards that showed the log up to it, and recovery replays the log forms of exactly the later commands |
| `PowerLoss.FlushedWritesSurviveIff` | internal/persistence/appendlog.go:129-142 | flushed writes survive every power failure if and only if the rotated segments recovery reads were synced |
| `PowerLoss.PowerFailureLeavesAHole` | internal/persistence/appendlog.go:129-142 | a run without `always` in which a flushed write comes back but an earlier one does not |
| `Clusters.UnlockedUnchanged` | internal/server/conn.go:170-179 | a shard outside the locks a command takes is not changed |
| `Clusters.SemSound` | internal/server/conn.go:96-179 | the table, the handlers and the routing satisfy what log order needs, for any hash, any shard count and every clock reading |
| `Clusters.UnloggedChangesNothing` | internal/server/conn.go:124-148 | a command that is not logged, because it reads or fails, changes no shard |
| `Clusters.LogRecordResolves` | internal/server/conn.go:155-163 | what persistArgs logs is again a command, is the log form of the operation, and would be logged as it is |
| `Clusters.LookupIsProper` | internal/command/registry.go:54-66 | the program's own name lookup finds the name that rewritten EXPIRE records carry |
| `Clusters.FoldRefines` | internal/shard/shard.go:55-138 | any list of commands, each at its own instant and under any seed, leaves each database's shards holding what it leaves one keyspace |
| `Restarts.RestoredHolds` | internal/shard/shard.go:17-61 | restoring a snapshot routes every key under the new seed, and each database's shards hold what the records say |
| `Restarts.RestoredSeenIff` | internal/server/server.go:280-291 | what is restored shows the captured database at an instant if and only if every captured deadline is carried by the format or past either way |
| `Restarts.LiveDatabases` | internal/server/conn.go:96-150 | at every moment of every run, a key whose shard is not held between run and append reads as after the commands replayed and logged so far, on one keyspace |
| `Restarts.RecoveredDatabases` | internal/server/server.go:267-305 | stop any run anywhere and restart under any seed with clock readings that do not go back: every key of every database reads as after a prefix of the commands, each at the instant it ran, holding every flushed one, whenever captured deadlines are carried and the commands since the snapshot are ones their log forms reproduce |
| `Restarts.RecoveredIff` | internal/server/server.go:280-291 | with nothing logged since the snapshot, every key reads as before if and only if every captured deadline is carried or past either way |
| `Restarts.ReplayDispatches` | internal/server/server.go:292-298 | every record replay hands to the registry names a database, a command and enough arguments |
| `Restarts.FileRestores` | internal/persistence/snapshot.go:29-74 | restoring from the snapshot file is restoring from the records written |
| `Revivals.EpochKeyComesBack` | internal/server/server.go:393-411 | SET, PEXPIREAT 0 and a compaction: the key is dead, and every restart brings it back for good |
| `Locks.StepKeeps` | internal/shard/shard.go:142-194 | lock bookkeeping matches the threads through every step |
| `Locks.MutualExclusion` | internal/shard/shard.go:142-194 | in every reachable state an exclusive holder is the only holder |
| `Locks.NoOvertaking` | internal/shard/shard.go:142-194 | once a writer has announced itself nobody else gets the lock before it |
| `Locks.DeadlockFree` | internal/shard/shard.go:142-194 | threads that take locks in increasing rank always have an enabled step, though a waiting writer blocks new readers |
| `Locks.RunsEnd` | internal/shard/shard.go:142-194 | no run takes more turns than twice its operations, so every thread finishes |
| `LockPrograms.ProgramBalanced` | internal/server/server.go:350-391 | commands, expiry passes, compaction and store calls take locks in increasing rank and release all of them |
| `LockPrograms.WorkIsProper` | internal/server/conn.go:96-179 | whatever the command and its keys, an expiry pass or a compaction, the locks are taken in ascending order below the store's mutex |
| `LockPrograms.RequestLocks` | internal/server/conn.go:104-179 | the locks a request takes are exactly those of the shards its command may read or write |
| `LockPrograms.SingleKeyLocks` | internal/server/conn.go:104-131 | the fast path locks exactly the shard of its key |
| `LockPrograms.ServerDeadlockFree` | internal/server/server.go:350-391 | any requests with any keys on any number of connections, with any passes, compactions and flushes, never deadlock |
| `LockPrograms.ShardSet` | internal/shard/shard.go:231-249 | the distinct shards of the keys, ascending, which no other list is |
| `Exclusion.InsideHolds` | internal/server/conn.go:104-150 | between its last acquire and its first release a thread holds every lock of its request, sweep or capture, in that one's mode |
| `Exclusion.SectionsApart` | internal/shard/shard.go:142-194 | in every reachable state, two threads inside such stretches of which one is exclusive hold no lock in common |
| `Exclusion.RequestMode` | internal/server/conn.go:104-150 | commands that do more than read lock exclusively, and are logged exactly when they succeed |
| `Exclusion.RequestsApart` | internal/server/conn.go:104-150 | however many connections, a write that is running or being logged shares no shard with any other command at work |
| `Exclusion.LogsApart` | internal/persistence/appendlog.go:88-98 | in every reachable state, at most one thread is writing to the log |
| `Exclusion.CaptureAlone` | internal/server/server.go:350-391 | while a compaction captures and rotates, only commands that lock nothing are at work |
| `Exclusion.SweepAlone` | internal/shard/shard.go:200-209 | while an expiry pass sweeps a shard, no command at work has that shard |
| `Snapshots.ValueRoundTrip` | internal/persistence/codec.go:54-188 | every listed value reads back as listed |
| `Snapshots.RecRoundTrip` | internal/persistence/snapshot.go:96-134 | a record reads back with its database, key, deadline word and value |
| `Snapshots.WriteSnapshot` | internal/persistence/snapshot.go:29-41 | magic, base generation and the records in the order emitted |
| `Snapshots.ReadSnapshot` | internal/persistence/snapshot.go:46-74 | the loop loads what the reading function says |
| `SnapshotCuts.SnapshotCut` | internal/persistence/snapshot.go:46-74 | a file cut to nothing counts as none, cut in its header is refused, and otherwise exactly its whole records load, without an error only if the cut fell between two |
| `SnapshotCuts.RecPrefix` | internal/persistence/snapshot.go:111-134 | a record cut after its first byte is an unexpected end, for every kind of value |
| `SnapshotCuts.MistaggedRefused` | internal/persistence/codec.go:125-188 | an unknown value tag ends the load with an error after the records before it |
| `Snapshots.SnapshotRoundTrip` | internal/persistence/snapshot.go:29-74 | the same generation and records come back |
| `Captures.CollectedIs` | internal/persistence/codec.go:143-184 | rebuilding from a listing gives the map it lists, in whatever order |
| `Captures.DeadlineRoundTripIff` | internal/server/server.go:284-287 | a deadline comes back if and only if it is in int64 nanoseconds and not the epoch, or there was none |
| `Captures.EpochKeyRevives` | internal/server/server.go:284-287 | an expired key with the epoch as deadline comes back alive |
| `Captures.FarKeyDies` | internal/server/server.go:401-404 | a live key with a deadline in the year 2264 comes back dead |
| `Captures.CarriedAtIff` | internal/server/server.go:284-287 | a restored entry is seen as the captured one at an instant if and only if its deadline is carried or past either way |
| `Captures.CaptureRoundTripIff` | internal/server/server.go:393-411 | capture and restore give back every database, key, value and deadline if and only if every deadline can be carried |
| `Captures.ValuesKept` | internal/server/server.go:393-411 | a captured value is the stored one, nothing rearranged, each score by its number |
| `Reloads.ReloadList` | internal/persistence/codec.go:137-142 | written from one list and read into another with any thresholds: the same sequence |
| `Reloads.ReloadHash` | internal/persistence/codec.go:143-160 | the same map, whatever the enumeration order and thresholds |
| `Reloads.ReloadSet` | internal/persistence/codec.go:161-166 | the same set, whatever the enumeration order and thresholds |
| `Reloads.ReloadZSet` | internal/persistence/codec.go:167-184 | the same scores bit for bit, whatever the thresholds and skip list heights |
| `Replies.Writer.WriteReply` | internal/resp/writer.go:46-84 | the recursive writer appends exactly the reply's encoding |
| `Replies.ParseEncode` | clients/node/memcore.mjs:109-148 | a clean reply at the head of the buffer is parsed exactly and nothing after it touched |
| `Replies.ReplyCut` | clients/node/memcore.mjs:109-148 | a strict prefix of a clean reply parses to null |
| `Replies.ParseExactIff` | clients/node/memcore.mjs:109-148 | a reply of any nesting is read as written if and only if no text in it holds a line break |
| `Replies.UnknownCommandBreaks` | internal/command/registry.go:77-80 | an error that quotes a name with a line break is not read as written |
| `Framing.ChunksDoNotMatter` | clients/node/memcore.mjs:79-90 | for any such parser, every split of the stream and every interleaving of requests settles the requests the received bytes complete |
| `NodeClient.Client.OnData` | clients/node/memcore.mjs:79-90 | the receive loop delivers every whole reply in the buffer to the oldest waiters and keeps the rest |
| `NodeClient.RepliesReachTheirRequests` | clients/node/memcore.mjs:79-148 | once all bytes are in, each request has its own reply, in order, and nothing is left |
| `NodeClient.PartialDelivery` | clients/node/memcore.mjs:79-148 | before that, exactly the replies that arrived whole are delivered |
| `Requests.Reader.ReadN` | internal/resp/reader.go:128-150 | the chunked loop equals one direct read, and fails exactly when the stream is short |
| `Requests.Reader.Request` | internal/resp/reader.go:45-105 | the stateful reader returns what the request function gives and stands at its rest |
| `Requests.RequestRoundTripIff` | clients/go/memcore.go:112-131 | a request reads back as sent, leaving the bytes after it, if and only if it is within the size limits |
| `Requests.PipelineRoundTrip` | internal/resp/reader.go:45-150 | pipelined requests come out one by one, as sent |
| `RequestForms.RequestIff` | internal/resp/reader.go:45-204 | the front of a stream is taken for a request if and only if it is that request in the array or the line form, with every count, limit and line break right, and then the rest |
| `RequestForms.RequestFinal` | internal/resp/reader.go:45-204 | a request once taken and a protocol error once found stand however the stream goes on |
| `RequestForms.EndsWithin` | internal/resp/reader.go:41-58 | a stream that ends within a request is a clean end before its first byte and an unexpected one after it, never a request or a protocol error |
| `Formats.LineBytes` | internal/resp/writer.go:46-76 | the bytes of nil, simple, error and integer replies |
| `Formats.BulkIs` | internal/resp/writer.go:78-84 | the bytes of a bulk reply |
| `Formats.ArrayBytes` | internal/resp/writer.go:46-70 | the bytes of an array |
| `Formats.ClientReads` | clients/node/memcore.mjs:109-124 | what the Node client makes of the literal bytes of a text, an error, a number and nil |
| `Formats.ClientReadsBulk` | clients/node/memcore.mjs:125-131 | and of a bulk |
| `Formats.ClientReadsArray` | clients/node/memcore.mjs:132-144 | and of an array |
| `Formats.RequestBytes` | clients/go/memcore.go:112-131 | the bytes of a request |
| `Formats.RequestLimits` | internal/resp/reader.go:59-105 | the limits are 2^20 arguments of 512 MiB |
| `Formats.DecimalBytes` | internal/resp/writer.go:86-92 | decimal digits, most significant first, and the minus sign |
| `Formats.DecimalSpellings` | internal/command/strings.go:49-52 | a plus sign and leading zeros are read, a sign alone is not |
| `Formats.NoDeadline` | internal/keyspace/entry.go:17-17 | the time that stands for no deadline is the first of January of the year 1 |
| `Formats.UvarintBytes` | internal/persistence/codec.go:27-32 | seven bits to a byte, lowest first, no byte wasted |
| `Formats.OverflowIff` | internal/persistence/codec.go:42-52 | a number is refused if and only if it needs more than 64 bits |
| `Formats.Word64Bytes` | internal/persistence/codec.go:118-123 | eight bytes, lowest first |
| `Formats.RecordBytes` | internal/persistence/appendlog.go:191-204 | the bytes of a log record |
| `Formats.CorruptRecordStops` | internal/persistence/recover.go:58-86 | what cannot be a record ends the replay with an error after the whole records before it |
| `Formats.SnapshotBytes` | internal/persistence/snapshot.go:29-109 | the bytes of a snapshot's header and of a record |
| `Formats.KindBytes` | internal/persistence/codec.go:19-25 | the letter of each kind of value |

## Left out

- `Durability.CrashSafety`: assumes that each restart finds the active segment ending on a
  record boundary, synced under `always`, because the program appends to it as it is; and
  that a power failure happens only under `always`, the other case being `PowerLoss`.
- `Replays.ReplayFaithful`: one direction only for whole runs, because a later command can
  repair what an unfaithful replay broke; `Replays.ReplayIff` is exact for each command.
- `Restarts.RecoveredDatabases`: one direction only when commands follow the snapshot, for the
  same reason; `Restarts.RecoveredIff` is exact when none does. Every restart keeps the number
  of databases, and `Servers` runs only commands that are then logged: those that only read or
  fail change no shard (`Clusters.UnloggedChangesNothing`).
- `Servers.CrashSafety`: keeps the assumptions of `Durability.CrashSafety` at each restart.
- `Databases.DB.ExpireCycle`: a pass that nothing interrupts; a pass between whose shards
  commands run is a sequence of `Databases.DB.ExpireShard`, as `Expiry` and `Servers` have it.
- `Handlers.Run`: works on the abstract values that the collection classes refine, with an
  update under the key where the source changes a stored collection through its reference;
  `ObjectDatabases.ObjectDB.Run` has the collection commands on the objects themselves.
- `ObjectDatabases.ObjectDB.Run`: without HGETALL, SMEMBERS and SINTER, whose listings the
  collection classes have, without ZRANGE, which is `Shelves.Shelf.ZRange`, and without the
  commands that touch no collection.
- `Verbs.PlainReplies`: not what PING, SELECT and CONFIG answer.
- `Verbs.ZRangeReplies`: the answer is the ranks asked for; `ZSets.ZSet.Range` has their listing.
- `Servers.StepKeeps`: that commands in flight lock disjoint shards is a guard of the step, which
  `Exclusion` derives from the locks.
- `Expiry.ExpiryInvisible`: one clock reading per command, where the source may read the
  clock once for the lookup and once more for the reply.
- `Requests.Reader.Request`: how an inline request is split at white space is a parameter.
- `Replies.ParseExactIff`: a count that is not a decimal integer, which the server never
  writes, is treated as an exception of the client.
- Parsing and formatting floats, NaN bit patterns in a corrupted snapshot and the case folding
  of WITHSCORES are parameters or outside the model. `Clusters` takes any command-name lookup
  that finds PEXPIREAT, of which `Names` has the program's.
- LPOP with a count so large that its result slice cannot be allocated, and every other
  recovered panic, I/O error, failed append or failed rotation.
- Two compactions at once, and the temporary file and directory entry behind the snapshot's
  rename: installing a snapshot is one atomic step.
- The TCP server, connection lifecycle, pipelined flush timing, metrics, slow log, CONFIG,
  PING and SELECT beyond touching no keyspace, and the UNLINK reaper, which hold no state
  that the modelled parts depend on.
- UTF-8 decoding and number precision in the Node client, and the Go client's reply reader.
- The other read-only handlers (GET, TTL, TYPE, HGETALL and the like) appear as part of the
  command semantics, not as methods of their own.
