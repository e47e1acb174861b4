# Verified models of IceFireDB

Dafny models of the parts of IceFireDB whose logic lives in the repository itself,
with proofs of what they promise. `dafny verify dfyconfig.toml` checks everything.

* **MySQL wire protocol** (`LenEnc`, `Packet`, `StmtCodec`, `StmtTable`, `Fields`,
  `Rows`, `Builder`, `Resultset`). Client and server halves meet: payloads of any
  length survive framing, prepared-statement arguments arrive as they were sent,
  and a result set built from Go values arrives with its fields, rows and values.
* **GTID sets** (`Intervals`, `Uuid`, `GtidSet`, `GtidText`, `GtidBinary`, `Gtid`,
  over `Text`). Sorted half-open intervals refine plain sets of transaction ids:
  normal forms are canonical, union and containment are exact, any order of updates
  gives the same set, and the text and binary forms read back.
* **Connection pool** (`Pool`, `PoolRuns`). One step is one lock section or one
  channel hand-off. Over every interleaving connections are conserved and the
  limits that really hold are proved, together with runs that reach them; no state
  leaves a waiting client out of reach.
* **Redis proxy** (`Chain`, `ChainSteps`, `Network`, `Replication`, `Utf8`,
  `Reader`). The re-entrant middleware chain with its 8-bit index, replication
  between proxies of different configurations over every interleaving of their
  requests, and the growable read buffer.
* **Hybrid store** (`Hybrid`). A read-through cache in front of a database refines
  a plain map, under the exact conditions the code needs.

Each part has a specification in functions; classes and methods follow the source's
own loops and updates and are proved to compute those functions; the lemmas state
what the functions mean. `Bytes` holds little-endian and two's-complement integers,
`Options` the option type, `MysqlTypes` the type codes.

## Conventions

* Go run-time panics (an index or slice bound out of range) are explicit results, as
  are all error returns. Integer widths are written out where they matter: sequence
  ids, the chain index, statement ids, the 16-bit parameter comparison, int64 GTIDs.
* The network, clocks, map iteration order, statement handlers and store failures are
  parameters or unconstrained choices, so results hold for all of them.
* Lengths of Go slices are Go ints; `FitsSlice`, `MAX_INTERVALS` and `TWO_63` say so.

## Where the code differs from what one would expect

* The comment at `IceFireDB-SQLite/pkg/mysql/client/pool.go:80-81` allows maxAlive + 1
  connections. The check and the spawn are separate lock sections, so the limit is
  maxAlive + min(5, minAlive), and it is reached (`PoolRuns.BoundIsReached`).
* The SQLProxy copy of the pool returns from `startNewConnections` on the first
  error and keeps counting what it drops. A pool loses connections that way exactly
  when minAlive is at least 2, up to minAlive - 1 of them, for ever, but never the
  last one it may open (`PoolRuns.AbandonsIff`, `PoolRuns.LostCapacity`).
* Long data is collected but `bindStmtArgs` overwrites every argument, so it never
  reaches the handler (`StmtTable.LongDataUnused`).
* `Field.Dump` writes the default length as eight bytes and `Field.Parse` reads a
  length-encoded integer (`Fields.DefaultRoundTripIff`).
* A column of mixed signedness is built without an error. Its numbers change sign
  type on the way (`Resultset.ExactIff`), and reading fails when one is outside
  the range announced by the first (`Resultset.TextResultRoundTrip`,
  `Resultset.MixedSigns`).
* An empty string whose data pointer is nil, such as a literal, is sent as NULL
  (`Resultset.EmptyStringBecomesNull`, `Resultset.ExactIff`).
* A proxy checks its peers' messages against no table and no ignore list, and JSON
  replaces bytes that are not UTF-8 on the way (`Replication.RunsAreAccepted`,
  `Replication.ArrivedIff`).
* Nothing orders requests of one proxy: between a command's broadcast and its own run
  anything may happen (`Replication.BroadcastsInterleave`).
* A batch evicts when a write is staged, not when it is committed
  (`Hybrid.StaleRead`, `Hybrid.CommitCoherentIff`), and a failed store read is cached
  as a nil value (`Hybrid.GetCoherentIff`).
* A GTID interval that starts below zero prints but does not parse
  (`Gtid.StringRoundTrip`).

## Model

| member | source | states |
|---|---|---|
| LenEnc.IntRoundTrip | IceFireDB-SQLProxy/pkg/mysql/mysql/util.go:143-194 | every length-encoded uint64, followed by anything, decodes to itself and its own length |
| LenEnc.StringRoundTrip | IceFireDB-SQLProxy/pkg/mysql/mysql/util.go:196-233 | every length-encoded string, followed by anything, decodes (and is skipped) exactly |
| LenEnc.StringFirstByte | IceFireDB-SQLProxy/pkg/mysql/mysql/util.go:173-194 | the first byte of an encoded string is never the NULL or ERR marker, and is the EOF marker only in front of 2^24 bytes or more |
| LenEnc.IntForm | IceFireDB-SQLProxy/pkg/mysql/mysql/util.go:173-194 | one byte below 251, and otherwise the marker 0xfc, 0xfd or 0xfe with two, three or eight little-endian bytes by size |
| LenEnc.CutString | IceFireDB-SQLProxy/pkg/mysql/mysql/util.go:196-226 | no encoded string that is cut off after its first byte reads |
| LenEnc.LongLength | IceFireDB-SQLProxy/pkg/mysql/mysql/util.go:196-226 | behind any eight-byte length a string is read when it is there, missed when prefix and length sum to an int, and otherwise the read panics and the skip panics or goes back |
| Packet.FramesRoundTrip | IceFireDB-SQLProxy/pkg/mysql/packet/conn.go:138-221 | any payload of any length, framed from any sequence id and followed by any bytes, reads back exactly, leaves those bytes, and moves the reader to the writer's sequence id |
| Packet.ReadIsExact | IceFireDB-SQLProxy/pkg/mysql/packet/conn.go:138-177 | a read succeeds only on the very bytes that writing its payload produces; framing has no second spelling |
| Packet.SeqClosedForm | IceFireDB-SQLProxy/pkg/mysql/packet/conn.go:179-221 | after a payload of len bytes the sequence id is start + len / (2^24-1) + 1 modulo 256 |
| Packet.WrongSequence | IceFireDB-SQLProxy/pkg/mysql/packet/conn.go:138-177 | a payload framed from another sequence id than the expected one is refused, and the expected id stays |
| Packet.TruncatedFrames | IceFireDB-SQLProxy/pkg/mysql/packet/conn.go:138-177 | no proper prefix of a framed payload reads: the connection is reported bad with its input used up |
| Packet.StreamRead | IceFireDB-SQLProxy/pkg/mysql/packet/conn.go:138-177 | reading from a stream of packets takes off exactly its first packet |
| Packet.Conn.constructor | IceFireDB-SQLProxy/pkg/mysql/packet/conn.go:70-81 | a new connection starts at sequence id 0 with no error |
| Packet.Conn.SendFrame | IceFireDB-SQLProxy/pkg/mysql/packet/conn.go:182-201 | writes the header over the four bytes in front of a chunk, leaves all other bytes, and sends the frame or the part the network took |
| Packet.Conn.SendFullFrames | IceFireDB-SQLProxy/pkg/mysql/packet/conn.go:182-203 | the loop over maximal chunks: what is sent and what is left make up the frames of the payload, although every header overwrites payload bytes already sent |
| Packet.Conn.WritePacket | IceFireDB-SQLProxy/pkg/mysql/packet/conn.go:179-221 | all frames of the payload go out and the sequence id advances, or exactly the prefix the network had room for and the error is recorded |
| Packet.Conn.CopyN | IceFireDB-SQLProxy/pkg/mysql/packet/conn.go:113-136 | copies n bytes in buffer-sized chunks, or fails with the input used up |
| Packet.Conn.ReadPacketTo | IceFireDB-SQLProxy/pkg/mysql/packet/conn.go:138-177 | returns the payload, error, unread input and sequence id of the frame grammar, with the recursion over maximal frames |
| Intervals.SortSorts | IceFireDB-SQLProxy/pkg/mysql/mysql/mysql_gtid.go:68-84 | the specification of the sort is ordered by Less and a permutation |
| Intervals.SortedIsUnique | IceFireDB-SQLProxy/pkg/mysql/mysql/mysql_gtid.go:68-84 | the order of Less leaves one sorted arrangement, so the result does not depend on the sorting algorithm |
| Intervals.SortInPlace | IceFireDB-SQLProxy/pkg/mysql/mysql/mysql_gtid.go:82-84 | sorts the array in place to that arrangement |
| Intervals.MergeLoop | IceFireDB-SQLProxy/pkg/mysql/mysql/mysql_gtid.go:94-106 | the loop that grows the last interval or appends one computes the merge |
| Intervals.NormalizeInPlace | IceFireDB-SQLProxy/pkg/mysql/mysql/mysql_gtid.go:86-108 | sorts the receiver in place and returns its normal form |
| Intervals.NormalizeMeaning | IceFireDB-SQLProxy/pkg/mysql/mysql/mysql_gtid.go:86-108 | the normal form stands for the same ids, is sorted and has a gap between neighbours |
| Intervals.Idempotent | IceFireDB-SQLProxy/pkg/mysql/mysql/mysql_gtid.go:86-108 | normalising twice is normalising once, for every slice |
| Intervals.Canonical | IceFireDB-SQLProxy/pkg/mysql/mysql/mysql_gtid.go:86-108 | two normal forms that stand for the same ids are equal |
| Intervals.SameIdsIffSameForm | IceFireDB-SQLProxy/pkg/mysql/mysql/mysql_gtid.go:86-145 | non-empty slices stand for the same ids if and only if their normal forms are equal |
| Intervals.Contain | IceFireDB-SQLProxy/pkg/mysql/mysql/mysql_gtid.go:111-131 | the one-pass test never claims too much, and on a normal form and sorted non-empty intervals answers exactly the subset question |
| Intervals.Equal | IceFireDB-SQLProxy/pkg/mysql/mysql/mysql_gtid.go:133-145 | element-wise equality, which on normal forms is equality of the sets |
| Intervals.Compare | IceFireDB-SQLProxy/pkg/mysql/mysql/mysql_gtid.go:147-156 | 0 exactly for equal slices, 1 only for a superset, and on normal forms 0, 1 or -1 exactly for equal, superset and anything else |
| Uuid.UuidRoundTrip | vendor/github.com/satori/go.uuid/codec.go:94-188 | the printed form of every UUID parses back to it |
| Uuid.ToStringInjective | vendor/github.com/satori/go.uuid/uuid.go:115-129 | two UUIDs with the same text are equal, so keying a map by the text is keying it by the UUID |
| Uuid.UuidClean | vendor/github.com/satori/go.uuid/uuid.go:115-129 | a printed UUID has no comma, colon or space |
| Uuid.UuidShape | vendor/github.com/satori/go.uuid/uuid.go:115-129 | the printed form is lower-case hexadecimal digits with dashes at 8, 13, 18 and 23 |
| Uuid.OtherForms | vendor/github.com/satori/go.uuid/codec.go:94-188 | the plain, braced and URN spellings parse to the same UUID |
| GtidSet.CombineIds | IceFireDB-SQLProxy/pkg/mysql/mysql/mysql_gtid.go:222-225 | normalising two lists together denotes the union of their ids and stays normal |
| GtidSet.AddSetMeaning | IceFireDB-SQLProxy/pkg/mysql/mysql/mysql_gtid.go:349-360 | AddSet adds exactly the ids of the list to one server and keeps the set normalised |
| GtidSet.AddListMeaning | IceFireDB-SQLProxy/pkg/mysql/mysql/mysql_gtid.go:304-322 | adding a list of UUID sets one by one, repeated UUIDs included, holds exactly the ids of all of them |
| GtidSet.UnionMeaning | IceFireDB-SQLProxy/pkg/mysql/mysql/mysql_gtid.go:362-371 | adding all of another set denotes the union of the two |
| GtidSet.CanonicalSets | IceFireDB-SQLProxy/pkg/mysql/mysql/mysql_gtid.go:393-415 | sets that denote the same transactions are equal as maps |
| GtidText.IntervalRoundTrip | IceFireDB-SQLProxy/pkg/mysql/mysql/mysql_gtid.go:27-60 | a printed interval parses back exactly when it does not start below zero, and is refused otherwise; closed text and half-open storage agree without overflow |
| GtidText.ParseIntervalMeaning | IceFireDB-SQLProxy/pkg/mysql/mysql/mysql_gtid.go:27-48 | a text is an interval exactly when it is one number, or two joined by a dash in order, and holds the numbers between them |
| GtidText.ParseUuidSetMeaning | IceFireDB-SQLProxy/pkg/mysql/mysql/mysql_gtid.go:164-189 | a part parses exactly when, trimmed, it is a UUID and colon-separated intervals, and holds exactly the ids its intervals say |
| GtidText.ParseMeaning | IceFireDB-SQLProxy/pkg/mysql/mysql/mysql_gtid.go:304-322 | a text parses exactly when every comma-separated part does, and the set holds exactly what the parts say, whatever UUIDs they repeat |
| GtidText.UuidSetRoundTrip | IceFireDB-SQLProxy/pkg/mysql/mysql/mysql_gtid.go:164-229 | the text of a UUID set parses back exactly when it has an interval and none starts below zero, and contains no comma |
| GtidText.FormatInjective | IceFireDB-SQLProxy/pkg/mysql/mysql/mysql_gtid.go:209-229 | two UUID sets with the same text belong to the same UUID |
| GtidText.ParsedIsProper | IceFireDB-SQLProxy/pkg/mysql/mysql/mysql_gtid.go:304-322 | whatever parses is normalised and has no UUID without an interval |
| GtidText.TextRoundTrip | IceFireDB-SQLProxy/pkg/mysql/mysql/mysql_gtid.go:304-322 | the texts of a set joined in any order parse back to it, or fail, exactly by that condition |
| GtidText.AscendingIsUnique | IceFireDB-SQLProxy/pkg/mysql/mysql/mysql_gtid.go:417-441 | a set of strings has one ascending listing |
| GtidBinary.IntervalsBinaryRoundTrip | IceFireDB-SQLProxy/pkg/mysql/mysql/mysql_gtid.go:231-281 | encoded intervals decode to themselves with the rest left |
| GtidBinary.UuidSetBinaryRoundTrip | IceFireDB-SQLProxy/pkg/mysql/mysql/mysql_gtid.go:231-281 | an encoded UUID set decodes to itself with the rest left |
| GtidBinary.BinaryRoundTrip | IceFireDB-SQLProxy/pkg/mysql/mysql/mysql_gtid.go:324-347 | for every order of visiting the map, decoding an encoded set gives the set and stops exactly behind it |
| GtidBinary.DecodeMeaning | IceFireDB-SQLProxy/pkg/mysql/mysql/mysql_gtid.go:324-347 | whatever decodes holds exactly the ids of the decoded UUID sets, repeated UUIDs included |
| GtidBinary.UuidSetLayout | IceFireDB-SQLProxy/pkg/mysql/mysql/mysql_gtid.go:231-249 | an encoded UUID set is the sixteen bytes, the number of intervals and the intervals |
| GtidBinary.TruncatedIsRefused | IceFireDB-SQLProxy/pkg/mysql/mysql/mysql_gtid.go:251-347 | no proper prefix of an encoded set decodes |
| GtidBinary.EncodedSize | IceFireDB-SQLProxy/pkg/mysql/mysql/mysql_gtid.go:443-453 | an encoded set takes 8 bytes and 24 + 16 * intervals bytes for each UUID |
| Gtid.UpdateMeaning | IceFireDB-SQLProxy/pkg/mysql/mysql/mysql_gtid.go:362-371 | one Update adds exactly the transactions its text says, or nothing if it is no such text |
| Gtid.FeedMeaning | IceFireDB-SQLProxy/pkg/mysql/mysql/mysql_gtid.go:362-371 | after any sequence of updates the set denotes what it held and the union of all that was named |
| Gtid.FeedOrder | IceFireDB-SQLProxy/pkg/mysql/mysql/mysql_gtid.go:362-371 | feeding the same strings in any order and with any repetition ends in the same set |
| Gtid.TextIsUnique | IceFireDB-SQLProxy/pkg/mysql/mysql/mysql_gtid.go:417-441 | String does not depend on the order the map is visited in |
| Gtid.StringRoundTrip | IceFireDB-SQLProxy/pkg/mysql/mysql/mysql_gtid.go:304-322 | String parses back to an equal set exactly when every UUID has an interval and none starts below zero |
| Gtid.MysqlGTIDSet.AddSet | IceFireDB-SQLProxy/pkg/mysql/mysql/mysql_gtid.go:349-360 | changes the map to the AddSet specification |
| Gtid.MysqlGTIDSet.Update | IceFireDB-SQLProxy/pkg/mysql/mysql/mysql_gtid.go:362-371 | parses and adds every UUID set in some order; the result is the union whatever the order |
| Gtid.MysqlGTIDSet.Contain | IceFireDB-SQLProxy/pkg/mysql/mysql/mysql_gtid.go:373-391 | never claims too much, and on proper sets answers exactly the subset question |
| Gtid.MysqlGTIDSet.Equal | IceFireDB-SQLProxy/pkg/mysql/mysql/mysql_gtid.go:393-415 | equality of the maps, which on proper sets is equality of the denoted transactions |
| Gtid.MysqlGTIDSet.Clone | IceFireDB-SQLProxy/pkg/mysql/mysql/mysql_gtid.go:455-464 | a fresh object with the normal form of each list; the receiver's lists end up sorted, and both are the old set when it is normalised |
| Gtid.MysqlGTIDSet.Encode | IceFireDB-SQLProxy/pkg/mysql/mysql/mysql_gtid.go:443-453 | the encoding of the set in some visiting order |
| Gtid.MysqlGTIDSet.String | IceFireDB-SQLProxy/pkg/mysql/mysql/mysql_gtid.go:417-441 | the ascending texts joined by commas |
| Gtid.ReadUuidSetText | IceFireDB-SQLProxy/pkg/mysql/mysql/mysql_gtid.go:164-189 | ParseUUIDSet with its loop over the intervals |
| Gtid.ParseMysqlGTIDSet | IceFireDB-SQLProxy/pkg/mysql/mysql/mysql_gtid.go:304-322 | a fresh set equal to the parsed one, or nil exactly when some part does not parse |
| Gtid.ReadUuidSetBytes | IceFireDB-SQLProxy/pkg/mysql/mysql/mysql_gtid.go:251-281 | UUIDSet.decode with its loop over the intervals |
| Gtid.DecodeMysqlGTIDSet | IceFireDB-SQLProxy/pkg/mysql/mysql/mysql_gtid.go:324-347 | a fresh set equal to the decoded one, or the error of the first bad part |
| Pool.Adjust | IceFireDB-SQLite/pkg/mysql/client/pool.go:94-102 | the adjusted limits satisfy minAlive <= maxIdle <= maxAlive, and limits that already do are kept |
| Pool.Shortage | IceFireDB-SQLite/pkg/mysql/client/pool.go:375-396 | spawning brings TotalCount up to minAlive, at most five at a time, and happens exactly below minAlive |
| Pool.TrimCount | IceFireDB-SQLite/pkg/mysql/client/pool.go:398-419 | the largest number of idle connections that keeps TotalCount above minAlive and is at most a tenth of the list or one |
| Pool.UsableIff | IceFireDB-SQLite/pkg/mysql/client/pool.go:94-102 | the adjusted limits are usable exactly when maxAlive and one of the other two are not negative, and the usable ones are those that adjusting keeps |
| Pool.LastInFirstOut | IceFireDB-SQLite/pkg/mysql/client/pool.go:218-225 | a connection put into a list with room is the next one taken, and taking it restores the list |
| Pool.PutAllThenTake | IceFireDB-SQLite/pkg/mysql/client/pool.go:282-294 | after several puts the last one is taken first and the others stay as they were put |
| Pool.TrimTakesTheEnd | IceFireDB-SQLite/pkg/mysql/client/pool.go:398-419 | trimming closes the most recently put connection first |
| Pool.Pool.constructor | IceFireDB-SQLite/pkg/mysql/client/pool.go:94-132 | the limits are adjusted to minAlive <= maxIdle <= maxAlive and the pool starts empty |
| Pool.Pool.GetIdleConnectionUnsafe | IceFireDB-SQLite/pkg/mysql/client/pool.go:282-294 | takes the most recently added idle connection, if any |
| Pool.Pool.PutConnectionUnsafe | IceFireDB-SQLite/pkg/mysql/client/pool.go:218-225 | appends to the idle list, or closes and discounts when it is full |
| Pool.Pool.TakeOrReserve | IceFireDB-SQLite/pkg/mysql/client/pool.go:233-250 | the producer's lock section: an idle connection, or a counted reservation below maxAlive |
| Pool.Pool.PutStarted | IceFireDB-SQLite/pkg/mysql/client/pool.go:457-462 | puts each started connection and reports those the full list turned away |
| Pool.SplitOld | IceFireDB-SQLite/pkg/mysql/client/pool.go:324-341 | the backward swap-with-last loop splits the idle multiset exactly: old ones out once, newer ones kept once |
| Pool.Pool.GetOldIdleConnections | IceFireDB-SQLite/pkg/mysql/client/pool.go:314-345 | the same for the pool's own list |
| Pool.Pool.CloseIdleConnectionsIfCan | IceFireDB-SQLite/pkg/mysql/client/pool.go:398-437 | cuts off exactly the surplus at the end of the idle list |
| PoolRuns.ClientKeeps | IceFireDB-SQLite/pkg/mysql/client/pool.go:145-225 | every step of a client keeps the pool invariant |
| PoolRuns.ProducerKeeps | IceFireDB-SQLite/pkg/mysql/client/pool.go:227-263 | every step of the producer goroutine keeps it |
| PoolRuns.MaintKeeps | IceFireDB-SQLite/pkg/mysql/client/pool.go:296-463 | every step of start-up and maintenance keeps it |
| PoolRuns.Conservation | IceFireDB-SQLite/pkg/mysql/client/pool.go:145-463 | in every interleaving each connection ever made is in exactly one place, TotalCount is the number of counted live ones plus the producer's reservation, the idle list stays within maxIdle, and TotalCount plus outstanding starts stays within maxAlive + min(5, minAlive) |
| PoolRuns.ServedIff | IceFireDB-SQLite/pkg/mysql/client/pool.go:145-463 | in every state of every run a waiting client can be served by steps of the pool and at most one connection put back, if and only if maxAlive is not zero; no interleaving deadlocks the pool |
| PoolRuns.PutThenGet | IceFireDB-SQLite/pkg/mysql/client/pool.go:145-294 | a connection put back into a list with room is the next one a client or the producer takes from it, with the time of its return, whatever else happens meanwhile |
| PoolRuns.BoundIsReached | IceFireDB-SQLite/pkg/mysql/client/pool.go:375-396 | for every configuration some run reaches that bound, so the comment at lines 80-81, which allows one more than maxAlive, is not the limit |
| PoolRuns.AbandonedStay | IceFireDB-SQLProxy/pkg/mysql/client/pool.go:449-469 | connections dropped by the early return are never released, in any run |
| PoolRuns.AbandonedBound | IceFireDB-SQLProxy/pkg/mysql/client/pool.go:449-469 | no run drops more than minAlive - 1 connections that way, and the copy that skips failures drops none |
| PoolRuns.AbandonedBoundIsReached | IceFireDB-SQLProxy/pkg/mysql/client/pool.go:449-469 | some run of an open pool drops exactly that many, for every configuration of that copy |
| PoolRuns.AbandonsIff | IceFireDB-SQLProxy/pkg/mysql/client/pool.go:449-469 | a run can drop a counted connection if and only if the pool returns early and minAlive is at least 2 |
| PoolRuns.LostCapacity | IceFireDB-SQLProxy/pkg/mysql/client/pool.go:449-469 | dropped connections take their share of maxAlive in every later state, and the producer can reserve exactly while the others leave some of the rest, which for a positive maxAlive is never below one |
| StmtCodec.SetBitMeaning | IceFireDB-SQLProxy/pkg/mysql/client/stmt.go:67-72 | setting a bit of the NULL bitmap sets that bit and no other |
| StmtCodec.SetBitAdds | IceFireDB-SQLProxy/pkg/mysql/client/stmt.go:67-72 | bit k of a byte of the bitmap counts 2^k |
| StmtCodec.TypesOnWire | IceFireDB-SQLProxy/pkg/mysql/client/stmt.go:76-139 | the type codes of all kinds of arguments, with 0x80 for unsigned ones |
| StmtCodec.ReadsWhole | IceFireDB-SQLProxy/pkg/mysql/server/stmt.go:193-242 | TINY, SHORT and YEAR, LONG and INT24, and LONGLONG are read as 1, 2, 4 and 8 bytes, signed or not by the flag |
| StmtCodec.ReadsText | IceFireDB-SQLProxy/pkg/mysql/server/stmt.go:262-285 | DECIMAL, dates, strings, BIT and the types from NEWDECIMAL to GEOMETRY are read as length-encoded strings or NULL |
| StmtCodec.ReadsTooLittle | IceFireDB-SQLProxy/pkg/mysql/server/stmt.go:193-271 | a number that is cut short, or a missing string, is malformed |
| StmtCodec.UnknownTypes | IceFireDB-SQLProxy/pkg/mysql/server/stmt.go:286-288 | all other types are refused |
| StmtCodec.ValueRoundTrip | IceFireDB-SQLProxy/pkg/mysql/client/stmt.go:76-139 | every value the client writes is read back as its counterpart on the server, with the rest left |
| StmtCodec.BindWritten | IceFireDB-SQLProxy/pkg/mysql/server/stmt.go:169-292 | the binding loop recovers every argument from bitmap, types and values |
| StmtCodec.ExecuteRoundTrip | IceFireDB-SQLProxy/pkg/mysql/server/stmt.go:101-167 | for every argument list the server binds exactly the list the client sent, up to the documented type mapping, NULLs included, also when all are NULL and no types are sent |
| StmtCodec.CommandLayout | IceFireDB-SQLProxy/pkg/mysql/client/stmt.go:141-172 | the command holds the id, no cursor, one iteration, the bitmap, the new-types flag, the types and the values, in this order |
| StmtCodec.TruncatedIsRefused | IceFireDB-SQLProxy/pkg/mysql/server/stmt.go:101-292 | no proper prefix of the client's command binds, whatever the statement held before |
| StmtCodec.ExecuteOverWire | IceFireDB-SQLProxy/pkg/mysql/client/stmt.go:141-172 | the same through packet framing, with whatever follows left unread |
| StmtCodec.ExecuteForgets | IceFireDB-SQLProxy/pkg/mysql/server/stmt.go:101-292 | the bound arguments and the error depend on the command alone, not on what the statement held before |
| StmtCodec.Collect | IceFireDB-SQLProxy/pkg/mysql/client/stmt.go:57-139 | the loop over the arguments fills bitmap, types, values and the new-types flag |
| StmtCodec.Write | IceFireDB-SQLProxy/pkg/mysql/client/stmt.go:50-172 | builds the command, or refuses a wrong count or an unsupported type |
| StmtCodec.BindStmtArgs | IceFireDB-SQLProxy/pkg/mysql/server/stmt.go:169-292 | overwrites the arguments in place as the specification says, up to where it fails |
| StmtTable.DispatchKeeps | IceFireDB-SQLProxy/pkg/mysql/server/command.go:125-159 | every command keeps len(Args) = Params and ids in 1..stmtID, and registers no old id again |
| StmtTable.RunKeeps | IceFireDB-SQLProxy/pkg/mysql/server/command.go:125-159 | the same over every run before the id wraps |
| StmtTable.PrepareKeepsIff | IceFireDB-SQLProxy/pkg/mysql/server/command.go:125-138 | a prepare keeps that invariant if and only if the 32-bit id does not wrap |
| StmtTable.ClosedIsRejected | IceFireDB-SQLProxy/pkg/mysql/server/stmt.go:345-364 | after a close, however the connection goes on, execute and reset of the id are unknown-statement errors and long data is ignored |
| StmtTable.ExecuteIsExact | IceFireDB-SQLProxy/pkg/mysql/server/stmt.go:101-167 | whatever happened to a statement before, executing it hands the handler exactly the client's list and clears the arguments |
| StmtTable.TruncatedIsRefused | IceFireDB-SQLProxy/pkg/mysql/server/stmt.go:101-167 | an execute command that was cut short never reaches the handler |
| StmtTable.PrepareIsFresh | IceFireDB-SQLProxy/pkg/mysql/server/command.go:125-138 | a prepare answers with an id that is not in use, registers it with its parameters and leaves the other statements alone |
| StmtTable.PrepareThenUse | IceFireDB-SQLProxy/pkg/mysql/server/command.go:125-159 | until it is closed, whatever else the connection does, the answered id names the new statement: executing it hands over the client's arguments, resetting it succeeds and closing it removes it alone |
| StmtTable.OthersUntouched | IceFireDB-SQLProxy/pkg/mysql/server/command.go:139-159 | a command that names one statement leaves all others as they are |
| StmtTable.LongDataRun | IceFireDB-SQLProxy/pkg/mysql/server/stmt.go:295-324 | between executions an argument grows by exactly the chunks sent to it, in order, whatever else the connection does |
| StmtTable.LongDataAfterReset | IceFireDB-SQLProxy/pkg/mysql/server/stmt.go:295-343 | after a reset each argument is the concatenation of its chunks, or nil without one or beyond the 16-bit comparison |
| StmtTable.LongDataUnused | IceFireDB-SQLProxy/pkg/mysql/server/stmt.go:169-324 | no long data sent before an execution changes what the handler gets or what the client is told, errors included |
| StmtTable.BindCommand | IceFireDB-SQLProxy/pkg/mysql/server/stmt.go:101-156 | cuts the command into bitmap, types and values and binds it |
| StmtTable.Conn.constructor | IceFireDB-SQLProxy/pkg/mysql/server/command.go:125-138 | a connection starts with no statement and id 0 |
| StmtTable.Conn.HandlePrepare | IceFireDB-SQLProxy/pkg/mysql/server/command.go:125-138 | registers a statement with as many nil arguments as parameters under the next id; a refused query, or a negative count, which panics, uses up the id |
| StmtTable.Conn.HandleStmtExecute | IceFireDB-SQLProxy/pkg/mysql/server/stmt.go:101-167 | new table and reply of the execute specification, on every error path |
| StmtTable.Conn.HandleStmtSendLongData | IceFireDB-SQLProxy/pkg/mysql/server/stmt.go:295-324 | new table of the long-data specification, including the 16-bit truncation of the parameter count |
| StmtTable.Conn.HandleStmtReset | IceFireDB-SQLProxy/pkg/mysql/server/stmt.go:326-343 | clears the arguments, or rejects the id |
| StmtTable.Conn.HandleStmtClose | IceFireDB-SQLProxy/pkg/mysql/server/stmt.go:345-364 | removes the statement unless the handler refuses |
| Fields.FieldRoundTrip | IceFireDB-SQLProxy/pkg/mysql/mysql/field.go:44-181 | a field without a default value reads back, into any field object, with only that object's old default length left |
| Fields.NumbersLayout | IceFireDB-SQLProxy/pkg/mysql/mysql/field.go:166-173 | the fixed part holds charset, column length, type, flags and decimals in the protocol's places |
| Fields.DumpLayout | IceFireDB-SQLProxy/pkg/mysql/mysql/field.go:156-173 | the strings are written as catalogue def, schema, table, original table, name, original name |
| Fields.TruncatedField | IceFireDB-SQLProxy/pkg/mysql/mysql/field.go:44-112 | a field packet cut short parses exactly when only its two filler bytes are missing |
| Fields.DefaultRoundTripIff | IceFireDB-SQLProxy/pkg/mysql/mysql/field.go:114-178 | a field with a default value reads back if and only if the value is all zero bytes, as long as declared, and of a length below 251 or equal to 255 |
| Rows.ValueRoundTrip | IceFireDB-SQLProxy/pkg/mysql/mysql/resultset_helper.go:11-46 | a formatted value is read by its column as NULL, the number, the float's text or the string, or is an error exactly when the number is outside the column's signedness |
| Rows.RowRoundTrip | IceFireDB-SQLProxy/pkg/mysql/mysql/rowdata.go:21-77 | a built row parses to its values, or to an error exactly when one does not fit its column |
| Rows.ReadsByType | IceFireDB-SQLProxy/pkg/mysql/mysql/rowdata.go:44-70 | integer types read numbers in the range of their signedness, FLOAT and DOUBLE floats, all other types strings |
| Rows.MissingAreNull | IceFireDB-SQLProxy/pkg/mysql/mysql/rowdata.go:33-42 | columns beyond the end of a row packet read as NULL |
| Rows.ParseText | IceFireDB-SQLProxy/pkg/mysql/mysql/rowdata.go:21-77 | the loop over the columns computes the row specification |
| Builder.ObserveColumn | IceFireDB-SQLProxy/pkg/mysql/mysql/resultset_helper.go:101-167 | the field kept while building is the one the first value other than NULL declares, and building fails exactly when the column mixes types |
| Builder.DeclaredAs | IceFireDB-SQLProxy/pkg/mysql/mysql/resultset_helper.go:83-120 | the type, charset and flags a column declares for each kind of value |
| Builder.AddRow | IceFireDB-SQLProxy/pkg/mysql/mysql/resultset_helper.go:144-180 | one row updates every field and appends the encoded values, or fails |
| Builder.BuildSimpleTextResultset | IceFireDB-SQLProxy/pkg/mysql/mysql/resultset_helper.go:122-186 | the nested loops give the declared fields and encoded rows, or an error exactly for ragged rows, mixed types and unsupported values |
| Builder.BuiltSuits | IceFireDB-SQLProxy/pkg/mysql/mysql/resultset_helper.go:122-186 | every value suits the field its column declares |
| Builder.KeptIsExact | IceFireDB-SQLProxy/pkg/mysql/mysql/resultset_helper.go:101-177 | with one signedness per column and no empty string without storage every value fits and comes back as what it was |
| Builder.NotKept | IceFireDB-SQLProxy/pkg/mysql/mysql/resultset_helper.go:101-177 | any other column has a value that does not come back as what it was |
| Resultset.ColumnsRoundTrip | IceFireDB-SQLProxy/pkg/mysql/client/resp.go:323-363 | reading the field packets and the EOF returns the fields and stops behind the EOF |
| Resultset.RawRowsRoundTrip | IceFireDB-SQLProxy/pkg/mysql/client/resp.go:365-392 | the row packets come back if and only if each is non-empty, not an ERR packet and not a short packet with the EOF header |
| Resultset.CountPacket | IceFireDB-SQLProxy/pkg/mysql/client/resp.go:219-236 | the column count is taken for an OK packet exactly when it is zero, and never for an ERR or LocalInFile packet |
| Resultset.ResultRoundTrip | IceFireDB-SQLProxy/pkg/mysql/server/resp.go:134-180 | the client reads back exactly the fields and rows of any result set with a column and proper rows, and both sides agree on the sequence id |
| Resultset.NoColumns | IceFireDB-SQLProxy/pkg/mysql/server/resp.go:134-140 | a result set without columns is read as an OK packet |
| Resultset.OtherAnswers | IceFireDB-SQLProxy/pkg/mysql/client/resp.go:219-236 | an ERR packet is that error, an OK packet is handed on, and a LocalInFile request is refused |
| Resultset.BadCount | IceFireDB-SQLProxy/pkg/mysql/client/resp.go:275-296 | a column count with anything behind it is malformed, and one beyond a Go int panics |
| Resultset.ErrAmongRows | IceFireDB-SQLProxy/pkg/mysql/client/resp.go:365-392 | an ERR packet behind any rows ends the reading with that error |
| Resultset.ErrorResult | IceFireDB-SQLProxy/pkg/mysql/client/resp.go:219-410 | a result set that breaks off with an ERR packet among its rows is read as that error |
| Resultset.WrongCount | IceFireDB-SQLProxy/pkg/mysql/client/resp.go:323-363 | fewer field packets than announced are malformed and more panic |
| Resultset.BuiltRowIsRow | IceFireDB-SQLProxy/pkg/mysql/mysql/resultset_helper.go:171-177 | no built row is taken for an EOF or ERR packet |
| Resultset.ParseBuilt | IceFireDB-SQLProxy/pkg/mysql/client/resp.go:394-407 | parsing all built rows gives all values, or an error exactly when one does not fit its column |
| Resultset.TextResultRoundTrip | IceFireDB-SQLProxy/pkg/mysql/client/resp.go:219-410 | from named columns and values through server, wire and client: fields, rows, warnings, status and values arrive, nil slices and empty strings without storage as NULL, or an error exactly when a number is outside the range its column announces |
| Resultset.KeptRoundTrip | IceFireDB-SQLProxy/pkg/mysql/client/resp.go:219-410 | with one signedness per column and no empty string without storage every value arrives as exactly what it was |
| Resultset.ExactIff | IceFireDB-SQLProxy/pkg/mysql/client/resp.go:219-410 | every value arrives as exactly what it was if and only if no column mixes signed and unsigned numbers or holds an empty string whose data pointer is nil |
| Resultset.EmptyStringBecomesNull | IceFireDB-SQLProxy/pkg/mysql/mysql/resultset_helper.go:37-38 | such an empty string is built without an error and arrives as NULL |
| Resultset.MixedSigns | IceFireDB-SQLProxy/pkg/mysql/mysql/resultset_helper.go:149-167 | an unsigned number above a negative one is built without an error, and reading the result set fails |
| Resultset.WritePackets | IceFireDB-SQLProxy/pkg/mysql/server/resp.go:149-155 | the write loop sends all packets, or the prefix of their bytes the network took |
| Resultset.WriteFieldList | IceFireDB-SQLProxy/pkg/mysql/server/resp.go:163-180 | field packets and EOF, or that prefix |
| Resultset.WriteResultset | IceFireDB-SQLProxy/pkg/mysql/server/resp.go:134-161 | column count, fields, EOF, rows and EOF, or that prefix |
| Resultset.ReadResultColumns | IceFireDB-SQLProxy/pkg/mysql/client/resp.go:323-363 | the column loop computes the specification for every input, malformed ones and panics included |
| Resultset.ReadRowPackets | IceFireDB-SQLProxy/pkg/mysql/client/resp.go:365-392 | the row loop computes the specification for every input |
| Resultset.ParseRowValues | IceFireDB-SQLProxy/pkg/mysql/client/resp.go:394-409 | the parse loop computes the specification |
| Resultset.ReadResultOf | IceFireDB-SQLProxy/pkg/mysql/client/resp.go:219-296 | readResult and readResultset compute the specification for every input |
| Chain.AtMostOnceInOrder | IceFireDB-Redis-Proxy/pkg/router/context.go:49-59 | whatever handlers do, they start in index order, each at most once, with none left out |
| Chain.IndexFits | IceFireDB-Redis-Proxy/pkg/router/context.go:28-72 | with handlers that call Next at most once the int8 index never exceeds 126 and nothing panics |
| Chain.IndexReaches126 | IceFireDB-Redis-Proxy/pkg/router/context.go:28-72 | some chain reaches 126 |
| Chain.ManyCallsPanic | IceFireDB-Redis-Proxy/pkg/router/context.go:49-59 | without that limit a single handler panics exactly from 127 calls of Next on |
| Chain.ExactPrefix | IceFireDB-Redis-Proxy/pkg/router/context.go:49-72 | a chain that hands errors on runs exactly the handlers up to the first that returns an error or aborts before calling Next |
| Chain.ErrorComesOut | IceFireDB-Redis-Proxy/pkg/router/context.go:49-59 | when the first handlers hand on and one refuses, Next returns an error |
| Chain.NilComesOut | IceFireDB-Redis-Proxy/pkg/router/context.go:49-59 | when every handler succeeds Next returns nil |
| Chain.CombineHandlers | IceFireDB-Redis-Proxy/pkg/router/redisNode/router.go:163-172 | a chain is refused exactly when it would reach the abort index, and otherwise is the middlewares followed by the handlers |
| Chain.Context.constructor | IceFireDB-Redis-Proxy/pkg/router/context.go:41-47 | a context starts at index -1 |
| Chain.Context.Next | IceFireDB-Redis-Proxy/pkg/router/context.go:49-59 | the re-entrant loop computes the specification |
| Chain.Context.Invoke | IceFireDB-Redis-Proxy/pkg/router/context.go:49-72 | running a handler, its aborts and nested calls computes the specification |
| Network.MasterOnlyIff | IceFireDB-Redis-Proxy/pkg/router/mapper.go:49-52 | the mask test holds exactly when a write, may-write or master-only flag is set |
| Network.UpperIff | IceFireDB-Redis-Proxy/pkg/router/redisNode/router.go:63-65 | two spellings have the same upper-case form exactly when they differ in letter case only |
| Network.VerifyMeaning | IceFireDB-Redis-Proxy/pkg/router/mapper.go:54-79 | the argument checks mean equal to, less than, at least, and odd |
| Network.UpperMeaning | IceFireDB-Redis-Proxy/pkg/router/redisNode/router.go:63-65 | the upper-case form has the same letters and no lower-case one |
| Network.FoundInTable | IceFireDB-Redis-Proxy/pkg/router/redisNode/router.go:63-73 | every spelling of a name in the table is accepted exactly when the name is allowed, the count fits and it is not ignored |
| Network.EffectIff | IceFireDB-Redis-Proxy/pkg/router/redisNode/router.go:75-78 | COMMAND, PING and QUIT are answered by the proxy and everything else is passed on |
| Network.HandleOutcome | IceFireDB-Redis-Proxy/pkg/router/redisNode/router.go:57-93 | the caller gets an error exactly when the command is ignored or its reply cannot be written |
| Network.CaseBlind | IceFireDB-Redis-Proxy/pkg/router/redisNode/router.go:63-73 | how a client spells a command does not change whether it is accepted or replicated |
| Network.HandleEvents | IceFireDB-Redis-Proxy/pkg/router/redisNode/router.go:57-93 | a client command that is known, allowed, has the right number of arguments and is not ignored runs exactly once; if it is flagged it is broadcast exactly once, before; otherwise nothing happens |
| Network.SyncEvents | IceFireDB-Redis-Proxy/pkg/router/redisNode/router.go:95-120 | an inbound command runs exactly once and broadcasts nothing |
| Network.ChainEvents | IceFireDB-Redis-Proxy/pkg/router/ignorecmd.go:29-39 | the ignore and broadcast middlewares in front of the final handler, run through the chain |
| Utf8.SanitizeIff | IceFireDB-Redis-Proxy/pkg/router/pubsub.go:40-45 | a string passes through JSON unchanged if and only if it is well-formed UTF-8 |
| Utf8.SanitizedIsValid | IceFireDB-Redis-Proxy/pkg/router/pubsub.go:40-45 | what arrives is well-formed and would pass unchanged again |
| Utf8.EncodedIsValid | IceFireDB-Redis-Proxy/pkg/router/pubsub.go:40-45 | every sequence of Unicode scalar values encodes to a well-formed string |
| Utf8.ValidIsEncoded | IceFireDB-Redis-Proxy/pkg/router/pubsub.go:40-45 | every well-formed string is the encoding of scalar values, so well-formed means exactly that |
| Utf8.Replaces | IceFireDB-Redis-Proxy/pkg/router/pubsub.go:40-45 | the first byte that begins no character becomes U+FFFD, what is in front of it stays and what follows is treated alike |
| ChainSteps.LoopSteps | IceFireDB-Redis-Proxy/pkg/router/context.go:49-59 | the loop of Next, taken one action at a time with an explicit stack, ends where the nested calls end |
| ChainSteps.HandlerSteps | IceFireDB-Redis-Proxy/pkg/router/context.go:49-72 | the same for a handler with its aborts and nested calls |
| ChainSteps.PrefixOfAll | IceFireDB-Redis-Proxy/pkg/router/context.go:49-72 | at every moment a request has emitted a prefix of all it emits, and all of it once it is done |
| Replication.WholeIsReached | IceFireDB-Redis-Proxy/pkg/router/redisNode/router.go:57-120 | the actions of a request, taken one at a time, emit exactly what Handle or Sync emits |
| Replication.EachRequest | IceFireDB-Redis-Proxy/pkg/router/pubsub.go:34-70 | however requests of clients and peers interleave, the trace of each is a prefix of what is due, and all of it when it is over: one broadcast if replicated, then one run, for a client; one run for a peer |
| Replication.BroadcastFirst | IceFireDB-Redis-Proxy/pkg/router/pubsub.go:37-48 | a replicated command of a client never runs at its node before its broadcast, whatever happens in between |
| Replication.BroadcastsInterleave | IceFireDB-Redis-Proxy/pkg/router/pubsub.go:37-48 | some run has two broadcasts before either command runs, so nothing stronger about their neighbours holds |
| Replication.SentIsReplicated | IceFireDB-Redis-Proxy/pkg/router/pubsub.go:34-70 | in every state a request has sent at most one message, one that is over exactly one if it is a client's and its node replicates it, and a peer's none |
| Replication.RunsAreAccepted | IceFireDB-Redis-Proxy/pkg/router/redisNode/router.go:57-120 | all that is broadcast or run was accepted by the configuration of the node where its client sent it |
| Replication.RunsExactlyOnce | IceFireDB-Redis-Proxy/pkg/router/redisNode/router.go:57-120 | a node has run at most one command for each accepted client request and each message received, and exactly one when they are over |
| Replication.ArriveIsLocal | IceFireDB-Redis-Proxy/pkg/router/redisNode/router.go:57-93 | a client's request runs at the node it arrived at, once if accepted, and changes no other node's count |
| Replication.ReceiveIsLocal | IceFireDB-Redis-Proxy/pkg/router/pubsub.go:51-66 | a message received at a node runs there, once, with what arrived, and changes no other node's count |
| Replication.Delivered | IceFireDB-Redis-Proxy/pkg/router/pubsub.go:34-70 | for every node, some run delivers a replicated command there, so that the node has run exactly it |
| Replication.ArrivedIff | IceFireDB-Redis-Proxy/pkg/router/pubsub.go:51-66 | a peer runs exactly the client's arguments if and only if they are all well-formed UTF-8 |
| Replication.CanFinish | IceFireDB-Redis-Proxy/pkg/router/context.go:49-72 | from every state some number of its own actions finishes a request |
| Network.Router.constructor | IceFireDB-Redis-Proxy/pkg/router/redisNode/router.go:36-46 | a router starts without middlewares and routes |
| Network.Router.Use | IceFireDB-Redis-Proxy/pkg/router/redisNode/router.go:141-144 | appends a middleware, leaving the routes |
| Network.Router.AddCommand | IceFireDB-Redis-Proxy/pkg/router/redisNode/router.go:146-172 | routes a command to the middlewares so far and its handler, or refuses a chain that is too long |
| Network.Router.Setup | IceFireDB-Redis-Proxy/proxy/proxy.go:119-124 | leaves the routes that the configuration asks for |
| Network.Router.HandleCommand | IceFireDB-Redis-Proxy/pkg/router/redisNode/router.go:57-93 | the lookups, checks and the chain compute the specification |
| Network.Router.SyncCommand | IceFireDB-Redis-Proxy/pkg/router/redisNode/router.go:95-120 | runs the last handler alone |
| Hybrid.ApplyLookup | driver/hybriddb/write_batch.go:22-28 | a batch does to each key what its last write says and nothing to other keys |
| Hybrid.CommitCoherentIff | driver/hybriddb/write_batch.go:12-28 | a commit keeps the cache coherent if and only if each key it writes is not cached or cached with the value it writes |
| Hybrid.GetCoherentIff | driver/hybriddb/db.go:162-172 | a read keeps the cache coherent if and only if it hits or the store can be read, and answers right unless an existing key cannot be read |
| Hybrid.RunRefines | driver/hybriddb/db.go:154-196 | over every run of direct writes, reads, evictions, batches and rollbacks with no read of a staged key, every answer is that of a plain map and the cache stays coherent |
| Hybrid.BatchIsItsWrites | driver/hybriddb/write_batch.go:12-37 | staging writes and committing does to the store what the same writes do one by one, nothing reaches it before, and a rollback discards them all |
| Hybrid.BatchIsAllowed | driver/hybriddb/write_batch.go:12-37 | filling a batch, committing it, reading any key, resetting and reusing it is such a run |
| Hybrid.StaleRead | driver/hybriddb/write_batch.go:12-24 | after a read between staging and commit, and any further calls that do not write, stage or evict the key, the store has the new value and reads return the old one |
| Hybrid.DB.Put | driver/hybriddb/db.go:154-160 | writes and evicts, or changes nothing; keeps coherence |
| Hybrid.DB.Delete | driver/hybriddb/db.go:174-180 | deletes and evicts, or changes nothing; keeps coherence |
| Hybrid.DB.Get | driver/hybriddb/db.go:162-172 | on a coherent cache and a readable store the answer is the stored value |
| Hybrid.WriteBatch.Put | driver/hybriddb/write_batch.go:12-15 | stages and evicts at once |
| Hybrid.WriteBatch.Delete | driver/hybriddb/write_batch.go:17-20 | stages and evicts at once |
| Hybrid.WriteBatch.Commit | driver/hybriddb/write_batch.go:22-28 | applies the records in order, leaving batch and cache |
| Hybrid.WriteBatch.Rollback | driver/hybriddb/write_batch.go:30-37 | empties the batch |
| Reader.TakeIsPrefix | IceFireDB-Redis-Proxy/utils/reader.go:69-80 | the answers to any calls, joined, are a prefix of the stream |
| Reader.TakeIff | IceFireDB-Redis-Proxy/utils/reader.go:69-80 | the calls are answered without an error exactly when the stream has the bytes they ask for, and then with all of them |
| Reader.Reader.constructor | IceFireDB-Redis-Proxy/utils/reader.go:35-37 | an empty buffer in front of the source |
| Reader.Reader.RequestSpace | IceFireDB-Redis-Proxy/utils/reader.go:39-46 | there is room for the request and everything buffered survives the growth |
| Reader.Reader.ReadSome | IceFireDB-Redis-Proxy/utils/reader.go:48-56 | fails exactly when the source is too short; otherwise nothing of the stream is lost, and the reserved space suffices however the source cuts its reads |
| Reader.Reader.RequireNBytes | IceFireDB-Redis-Proxy/utils/reader.go:58-67 | the bytes asked for are buffered, or the stream has too few |
| Reader.Reader.GetNbytes | IceFireDB-Redis-Proxy/utils/reader.go:69-80 | returns exactly the next bytes of the stream and drops them from it |
| Reader.Reader.IsEnd | IceFireDB-Redis-Proxy/utils/reader.go:82-91 | tells whether everything buffered was handed out, keeping the stream |
| Reader.Reader.Serve | IceFireDB-Redis-Proxy/utils/reader.go:39-96 | any sequence of calls up to the first error gets the answers the stream has, for every chunking |

## Left out

- Packet.Conn.WritePacket: does not say what is left in the caller's buffer, because callers rebuild it before every packet.
- Packet.Conn.ReadPacketTo: on an error says only that what was there before is kept in front, because callers drop the buffer then.
- Gtid.MysqlGTIDSet.AddSet: does not model that a new UUID set is stored by reference and shared with the caller.
- Reader.Reader.GetNbytes: returns a copy; that the Go slice aliases the buffer until the next reset is not modelled.
- Resultset.ReadResultColumns: on a failed parse says nothing of the half-filled field, because the result is dropped, nor of the status in the first EOF, which the second overwrites.
- Resultset.ReadResultOf: does not model the name-to-index map of the fields, the streaming variants or OK and ERR packet contents.
- Rows.ParseText: float columns return the text that `ParseFloat` would read, so its errors on a foreign server's text are not modelled.
- Rows.ValueRoundTrip: floats are given by the text `AppendFloat` prints, so that `ParseFloat` inverts it is left to Go's library.
- StmtTable.RunKeeps: covers connections with fewer than 2^32 prepares, because after that ids are reused.
- PoolRuns.Conservation: assumes clients put back or drop only connections they borrowed, each once.
- Hybrid.RunRefines: assumes atomic calls, a store whose reads do not fail, a batch reset between a commit and its next use, and a cache that applies its operations in order.
- Replication.ArrivedIff: JSON is modelled by what it does to strings, the replacement of bytes that are not UTF-8; its syntax and escapes are left to Go's library.
- Replication.SentIsReplicated: delivery is any sequence of sent messages to any node; command names are upper-cased as ASCII.
- Negotiated protocol flags are taken to be the same on both sides of a result set.
- `BuildSimpleBinaryResultset`, `ParseBinary` and the date and time formats.
- `redisCluster`, whose `Sync` runs no handler, and the PubSub copy of the router.
- Authentication, TLS, handshakes, and the SQLProxy connection hand-off between peers.
- The root command files and the other storage drivers, which wrap foreign libraries.
- Configuration, logging, metrics and error tables.
