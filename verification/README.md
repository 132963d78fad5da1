# Verified models of the Redis 2.6.16 core algorithms

This project models the stateful algorithms of Redis 2.6.16 that are hardest to get right, in the
form the C code gives them (loops over byte arrays, fields updated in place, two-table hashing,
logs and buffers shared between steps), and proves what they are for. Each file has its own
specification, written independently of the code: a format and its decoder, a finite map, a
sorted sequence, a log and its replay, a history of events.

| files | code modelled | main result |
|---|---|---|
| `Lzf.dfy` | `lzf_c.c`, `lzf_d.c` | whatever the compressor returns, the decompressor gives back the input, for every content of the uninitialised hash table and every hash function; equal octets always shrink to about 3 in 264 |
| `Pqsort.dfy` | `pqsort.c` | the partial sort permutes the array and places every index of its window as a full sort would |
| `Dict.dfy`, `DictIterator.dfy` | `dict.c` | every sequence of operations and rehash steps refines a finite map; a rehash ends after as many finds as there are buckets; a safe iteration returns every surviving key exactly once |
| `Intset.dfy` | `intset.c` | the packed byte array is a strictly increasing sequence; add, remove and find refine a set, also through in-place widening |
| `Decimal.dfy`, `Resp.dfy` | `ll2string`, `string2ll`, command printing | printing and parsing are inverse, and the parser accepts nothing else |
| `Protocol.dfy` | `networking.c`, input | any printed commands, cut into reads of any size, are executed exactly; whatever else arrives is dropped or closes the connection as the code says |
| `OutputQueue.dfy` | `networking.c`, output | bytes sent, then bytes queued, are all accepted replies in order |
| `AofData.dfy`, `AofLoad.dfy`, `AofRewrite.dfy`, `AofBuffer.dfy`, `AofLogs.dfy`, `Aof.dfy` | `aof.c` | over every schedule of commands, flushes, forks, child ends, starts and stops (`Aof.Server.Follow`), both logs replay to the live dataset, and the file always to a past or present live state; no write is put off for two seconds |
| `Crc64.dfy`, `Crc64Detects.dfy` | `crc64.c` | the table loop is polynomial division, composes over chunks, is linear, and detects any damage within 8 bytes |
| `Rio.dfy`, `RdbStrings.dfy`, `RdbRecords.dfy`, `RdbSave.dfy`, `RdbLoad.dfy` | `rio.c`, `rio.h`, `rdb.c` | a dump loads back to the dataset that was saved, its checksum verified, and one that lost its end is refused; a save reported as good is whole exactly when no write failed and the flush at the end lost nothing |
| `Multi.dfy`, `ProcessCommand.dfy` | `multi.c`, `processCommand` | over every history, EXEC runs its queue exactly when no watched key was touched and no refusal flagged it, and all that was sent exactly when nothing was refused |
| `Popcount.dfy`, `Bitop.dfy` | `bitops.c` | word-wise counting and combining equal their definitions bit by bit and byte by byte |
| `Bio.dfy` | `bio.c` | under every interleaving of its threads, jobs are executed once each, in order, and none is forgotten |
| `Rand.dfy` | `rand.c` | the limbs hold the 48-bit recurrence of `lrand48` (POSIX.1-2017, System Interfaces), which has full period |

How to read it: a method is the code of one C function (or of a part of one, named by its lines);
a ghost predicate such as `Valid`, `Open`, `Inv`, `Conserved` or `Agree` is its invariant; lemmas
carry one step each. Ghost parameters such as `cmds`, `recs` or `more` only name what a stream is
supposed to hold: a postcondition that mentions them is claimed for every choice of them.
Environment choices are parameters that a caller may set in any way: what `write`, `fork`, `rename`
and `fsync` return, the sizes of reads, the clock, the iteration order of tables, the hash
function, the memory that a table starts with, the schedule of threads.

Places where code and documentation disagree, or a promise fails; the model follows the code, and says
exactly when the promise is kept:

- `SET key value EX n` (and `PX`) and `RESTORE key ttl payload`, which takes the expire from the clock (`migrate.c:122`)
  and which MIGRATE sends to the target (`migrate.c:172-182`), are logged as they were given (`aof.c:411-416`), so a replay
  restarts the time to live; and EXPIRE, PEXPIRE, SETEX and PSETEX read the clock once when they run (`db.c:587`, `db.c:595`,
  `t_string.c:86`) and again when they are logged (`aof.c:371`), so that the log gives the key more time if a millisecond
  went by. `AofData.LoggedReplays` says exactly when a logged command has its live effect again;
  `AofData.SetWithTtlDrifts`, `AofData.RestoreDrifts` and `AofData.RelativeExpireDrifts` give failing inputs. The protocol theorem is about
  commands that meet that condition (`AofData.Durable`).
- `multi.c:79-80` asks for `flagTransaction` after every error while queueing, but processCommand does not call it for a write on a
  read-only slave (`redis.c:1789-1795`) or for a command refused while loading (`redis.c:1820-1823`), and neither do the errors
  of a nested MULTI (`multi.c:87-89`) and of WATCH inside MULTI (`multi.c:310-313`). After these four, and only these, EXEC runs a
  transaction that lacks a command: `MultiHistory.Flags`, `MultiHistory.FourReasons`, `MultiHistory.RefusedWriteRuns`,
  `MultiServer.Server.ExecCommand`. The refusal in a Pub/Sub context (`redis.c:1797-1806`) does not flag either, but a client that
  is subscribed has no open transaction, which every command keeps (`Commands.ProcessCommand`).
- `rdb.c:102` compares the result of a write with -4, which it never is, `rdb.c:690` ignores that of the checksum, and `rdb.c:693-695`
  those of fflush, fsync and fclose, after which bytes that rio.c handed to stdio (`rio.c:82`) may still be lost, so a save can
  be reported as good without having been written whole: `RdbStrings.SaveLen`, `RioStream.Rio.Flush`, `RdbSave.Save`.
- The header of `crc64.c` announces an initial value of all ones, beside "init value of 0"; the announced check
  value belongs to 0 (`Crc64.CheckValue`, `Crc64.CheckValueOfOnes`).
- The comment at `lzf_c.c:211` calls `len` the number of octets minus one: it is the number minus two,
  as the decoder needs. The header `lzf.h:59-60` says that the output is less than 104% of the input. For inputs of 26 to 32, 51 to 64,
  76 to 96 and at least 101 octets it always is (`LzfC.Compress`, `LzfC.PromiseKept`); for every other length some input takes
  104% or more, one octet taking two (`LzfC.PromiseBroken`).
- `networking.c:900` compares the length of the whole buffer, with the part already parsed, to the limit for
  an incomplete header line. With the read lengths that `readQueryFromClient` uses, a well-formed stream never
  reaches that limit, which is proved (`Protocol.Client.ReadQuery`).

`Helpers.dfy` holds what several files need. Verify everything with `dafny verify dfyconfig.toml` (Dafny 4.11).

## Model

| member | source | states |
|---|---|---|
| LzfFormat.DecodeConcat | redis-2.6.16/src/lzf_d.c:64-146 | decoding a concatenation of two token streams is decoding the second on top of what the first produced, so the format can be reasoned about token by token |
| LzfFormat.CopyBackRepeats | redis-2.6.16/src/lzf_d.c:137-142 | the overlapping octet-by-octet copy at distance `dist` rebuilds any data that repeats at that distance, also when the copy is longer than the distance |
| LzfFormat.RefFields | redis-2.6.16/src/lzf_c.c:214-224 | the decoder's reading of a two or three octet reference (length bits, extra length, 13-bit offset) gets back the offset and length that the encoder packed |
| LzfFormat.AppendLiteral | redis-2.6.16/src/lzf_c.c:266-272 | a header and 1 to 32 literal octets, appended to a stream that decodes to a prefix of the data, make a stream that decodes to the longer prefix |
| LzfFormat.AppendRef | redis-2.6.16/src/lzf_c.c:211-224 | a reference written for data that repeats, appended to such a stream, does the same |
| LzfD.CopyForward | redis-2.6.16/src/lzf_d.c:137-142 | the in-place forward copy computes the overlapping copy of the specification and touches nothing after it |
| LzfD.StepToken | redis-2.6.16/src/lzf_d.c:66-144 | one turn of the decoder does exactly what the token means, or fails with the errno the token deserves; nothing past the given output length is written |
| LzfD.Decompress | redis-2.6.16/src/lzf_d.c:55-149 | the decoder returns the decoding of the whole stream, or 0 with E2BIG or EINVAL exactly when some token does not fit or is damaged |
| LzfC.MatchLength | redis-2.6.16/src/lzf_c.c:168-209 | the unrolled loop and the plain loop find the length at which the data stops repeating, or the greatest one allowed: 264, or what is left but for two octets, or 19 when that is 17 or 18 |
| LzfC.Matches | redis-2.6.16/src/lzf_c.c:147-166 | an address from an uninitialised table slot is taken as a match if and only if it lies in the input, before the position, within 8192 octets of it, more than four octets are left and three octets are equal |
| LzfC.StopRun | redis-2.6.16/src/lzf_c.c:173-174 | patching the header backwards (or undoing an empty run) turns the open literal run into closed tokens that decode to the data so far |
| LzfC.EmitMatch | redis-2.6.16/src/lzf_c.c:168-227 | closing the run, measuring and writing a match keeps the encoder's invariant, and gives up exactly when fewer than five octets of output are left |
| LzfC.CopyOne | redis-2.6.16/src/lzf_c.c:266-272 | one more literal keeps the encoder's invariant, through the switch to a new run after 32 |
| LzfC.Compress | redis-2.6.16/src/lzf_c.c:98-294 | for every input, initial hash table and hash function: a result k > 0 is at most the output length and at most n + (n + 31)/32, and those k octets decode to exactly the input; an output of n + n/32 + 4 octets is always enough; the promise of less than 104% is kept for every input whose length is 26 to 32, 51 to 64, 76 to 96 or at least 101; octets that all differ take n + (n + 31)/32 exactly or do not fit; and n equal octets take `SameSize(n)` exactly, given four octets more of room |
| LzfC.SameSizeSmall | redis-2.6.16/src/lzf_c.c:131-293 | n equal octets, compressed by `LzfC.Compress`, take at most 3 octets for each 264 begun and 6 more, and 9 when n is 100 |
| LzfC.Turn | redis-2.6.16/src/lzf_c.c:131-273 | one turn of the loop, from any table and hash: the position enters the table, a match is taken exactly if the slot qualifies and its last two positions enter the table, else one literal; and it gives up exactly if there is no room for that |
| LzfC.EvenTurn | redis-2.6.16/src/lzf_c.c:131-273 | over equal octets every table and hash function leads to the same matches: after two literals, a reference one octet back, as long as allowed, at every turn until fewer than five octets are left |
| LzfC.PromiseKept | redis-2.6.16/src/lzf.h:59-60 | the longest output for n octets is less than 104% of them if and only if n is 26 to 32, 51 to 64, 76 to 96 or at least 101 |
| LzfC.PromiseBroken | redis-2.6.16/src/lzf.h:59-60 | for every other length there is an input, of octets that all differ, for which the longest output is needed and is 104% or more; one octet takes two |
| LzfC.Finish | redis-2.6.16/src/lzf_c.c:276-293 | the last octets and the last run header complete a stream that decodes to the whole input, within the longest output |
| Pqsort.VecSwap | redis-2.6.16/src/pqsort.c:69-76 | two disjoint blocks change places, and everything else stays |
| Pqsort.InsertionSort | redis-2.6.16/src/pqsort.c:108-114 | the small-range loop permutes the range and, under a total preorder, sorts it |
| Pqsort.LeftEqual | redis-2.6.16/src/pqsort.c:132-139 | moving an element equal to the pivot to the left edge keeps the five zones (equal, less, unknown, greater, equal) |
| Pqsort.Partition | redis-2.6.16/src/pqsort.c:127-154 | the two scans end with nothing unknown: equal, less, greater and equal zones, by permutation only |
| Pqsort.GatherEqual | redis-2.6.16/src/pqsort.c:163-167 | the block swaps bring both zones of equals to the middle: less, equal, greater |
| Pqsort.LeftDone | redis-2.6.16/src/pqsort.c:168-173 | once the window is placed in the left part, or the left part lies outside the window, it is placed up to the end of the middle |
| Pqsort.PqsortRange | redis-2.6.16/src/pqsort.c:99-188 | recursion and the `goto loop` end, permute the range and place every index of the window, whatever part was skipped |
| Pqsort.Pqsort | redis-2.6.16/src/pqsort.c:190-196 | the array is permuted and, for any total preorder, each index in [l, r] holds an element with nothing greater before it and nothing smaller after it |
| Pqsort.PlacedMatchesSorted | redis-2.6.16/src/pqsort.c:190-196 | a placed element equals, up to the preorder, the element that any full sort of the same elements has at that index |
| DictTables.NoDupPairs | redis-2.6.16/src/dict.c:480-499 | the recursive notion of a chain without duplicates is that its keys differ pairwise |
| DictTables.Unlink | redis-2.6.16/src/dict.c:415-429 | unlinking an entry removes its key from a chain and no other |
| DictTables.MoveKeeps | redis-2.6.16/src/dict.c:264-275 | moving the head of an old chain to its new bucket leaves the represented map as it was, and shifts one unit between the `used` counts |
| DictTables.RepresentsUpdate | redis-2.6.16/src/dict.c:338-436 | a change of either table that concerns one key changes the represented map at that key only |
| DictClass.ExpandKeeps | redis-2.6.16/src/dict.c:220-236 | a first table, or a second one with rehashing from bucket 0, keeps the invariant |
| DictClass.SwitchKeeps | redis-2.6.16/src/dict.c:250-256 | once the old table is empty the new one can take its place |
| DictClass.IndexInside | redis-2.6.16/src/dict.c:258-261 | while `used` of the old table is not zero, the scan for a non-empty bucket ends inside the table |
| DictClass.Dict.Expand | redis-2.6.16/src/dict.c:210-237 | fails exactly when rehashing or when the size is too small; otherwise allocates an empty table of the least power of two from 4 up that holds the size, the map unchanged |
| DictClass.Dict.Rehash | redis-2.6.16/src/dict.c:243-280 | n steps are n times that, entry by entry; the map stays as it is, the result says whether migration goes on, and as many steps as the old table has buckets, and one more, end it |
| DictShape.MovedByEnds | redis-2.6.16/src/dict.c:243-280 | whatever the chains, a migration has at most as many steps as there are buckets left, and the switch |
| DictClass.Dict.Step | redis-2.6.16/src/dict.c:309-311 | while a safe iterator runs, or without a rehash, nothing happens; else exactly the chain of the next non-empty bucket moves to the second table, or an emptied first table is replaced by the second |
| DictClass.Dict.DictFind | redis-2.6.16/src/dict.c:480-499 | the value of the key in the map, or nothing, during rehashing too, after one rehash step and no other change |
| DictClass.Dict.FindAll | redis-2.6.16/src/dict.c:309-486 | finds alone, more of them than the old table has buckets, end a migration, when no safe iterator runs, and return what the map holds |
| DictClass.Dict.ExpandIfNeeded | redis-2.6.16/src/dict.c:654-674 | the expansion that it asks for is never refused, so an add cannot fail for want of a table; it leaves the map alone and a first table in place, and a new second table starts a rehash |
| DictClass.Dict.Add | redis-2.6.16/src/dict.c:314-361 | adds the key exactly when it is not there: after one rehash step, or the expansion that is due, the entry is first in its bucket of the second table during a rehash, else of the first; nothing else moves |
| DictClass.Dict.Replace | redis-2.6.16/src/dict.c:367-386 | sets the key, and says whether it is new: an add, or the value of the entry replaced where it is |
| DictClass.Dict.Delete | redis-2.6.16/src/dict.c:401-436 | after one rehash step the entry of the key is gone from the table that held it, and nothing else moves |
| DictClass.Dict.Resize | redis-2.6.16/src/dict.c:198-207 | refused exactly when resizing is disabled, a rehash is on, or the expansion to the least table that holds the entries is; the map stays |
| DictClass.KeysUnique | redis-2.6.16/src/dict.c:338-361 | two entries with the same key, in whatever tables and buckets, are the same entry |
| DictClass.SizeExact | redis-2.6.16/src/dict.c:264-275 | the two `used` counters add up to the number of keys of the map |
| DictIteration.PendingAtStart | redis-2.6.16/src/dict.c:546-564 | a fresh safe iterator has every key of the map before it |
| DictIteration.Land | redis-2.6.16/src/dict.c:566-599 | returning an entry makes its key, and no other, no longer pending |
| DictIteration.SteadyCursor | redis-2.6.16/src/dict.c:566-599 | an update that unlinks nothing still pending leaves the saved next entry valid and the pending keys as they were, but for the keys it names |
| DictIteration.DeletedCursor | redis-2.6.16/src/dict.c:586-595 | deleting the entry just returned disturbs nothing that is pending: the next entry was saved |
| DictIteration.SafeIterator.Next | redis-2.6.16/src/dict.c:566-599 | returns an entry of the map that was pending and is pending no more, or nothing when no key is pending; the first call freezes rehashing |
| DictIteration.SafeIterator.Release | redis-2.6.16/src/dict.c:601-610 | gives back the freeze, if the iteration had begun |
| DictIteration.RunOp | redis-2.6.16/src/dict.c:309-311 | find, add, replace or deletion of the entry just returned leaves every other pending key pending, even when the add starts an expansion |
| DictIteration.Iterate | redis-2.6.16/src/dict.c:546-610 | for a loop body of any such operations: the iteration ends, every key present at its start and not deleted by the body is returned exactly once, and the map is what the operations made of it |
| LittleEndian.DecodeEncode | redis-2.6.16/src/intset.c:81-94 | a value that fits a width is read back from its two's complement little-endian bytes |
| IntsetClass.NarrowestEncoding | redis-2.6.16/src/intset.c:45-52 | a value fits exactly the widths from its own encoding up |
| IntsetClass.Intset.Search | redis-2.6.16/src/intset.c:115-154 | whether the value is in the set and where, or else the exact insertion point, through the shortcuts for the ends and the bisection |
| IntsetClass.Intset.Find | redis-2.6.16/src/intset.c:254-257 | true exactly for the members |
| IntsetClass.Intset.TooWide | redis-2.6.16/src/intset.c:209-214 | a value that needs a wider encoding lies outside the range of everything stored, below it when negative and above it otherwise |
| IntsetClass.UpgradeStep | redis-2.6.16/src/intset.c:167-171 | writing one widened element from the back leaves the bytes of the narrow elements not yet read untouched, for append and for prepend |
| IntsetClass.Intset.UpgradeAndAdd | redis-2.6.16/src/intset.c:157-180 | in the same byte array, every element is widened and the value put first or last; the result is still strictly increasing |
| IntsetClass.Intset.MoveTail | redis-2.6.16/src/intset.c:182-201 | the bytes of the tail move as one, and the elements before its target stay |
| IntsetClass.Intset.InsertNarrow | redis-2.6.16/src/intset.c:224-230 | room is made at the position and the value stored there: the sequence with the value inserted |
| IntsetClass.Intset.Add | redis-2.6.16/src/intset.c:204-231 | succeeds exactly for a new value; the members are the old ones and the value, strictly increasing, at the width in force |
| IntsetClass.Intset.Remove | redis-2.6.16/src/intset.c:234-251 | succeeds exactly for a member; the members are the old ones without it, strictly increasing |
| Decimal.PrintInjective | redis-2.6.16/src/util.c:220-239 | two numbers print alike only if they are equal |
| Decimal.Ll2string | redis-2.6.16/src/util.c:220-239 | the digit loop prints the number, the most negative one included |
| Decimal.String2ll | redis-2.6.16/src/util.c:244-305 | accepts exactly the strings that printing a 64-bit number can give, and returns that number |
| Resp.CatGenericCommand | redis-2.6.16/src/aof.c:322-345 | the text appended for a command: its count, then each argument with its length |
| AofData.LoggedReplays | redis-2.6.16/src/aof.c:354-416 | replaying what is logged for a command, later, has the effect the command had live if and only if it is neither a SET with its own expire option nor a RESTORE with a time to live, or the time is the same, and it is not logged as an expire relative to a clock that went on between running and logging it; a command rewritten to DEL or SREM is none of these |
| AofData.SetWithTtlDrifts | redis-2.6.16/src/aof.c:411-416 | SET k v EX 10 is logged as it is: replayed a millisecond later, the key expires a millisecond later than it should |
| AofData.RestoreDrifts | redis-2.6.16/src/migrate.c:85-127 | RESTORE k 10000 payload takes its expire from the clock and is logged as it is: replayed a millisecond later, the key expires a millisecond later than it should, for any payload that decodes |
| AofData.RelativeExpireDrifts | redis-2.6.16/src/aof.c:367-372 | SETEX k 10 v, run at one millisecond and logged at the next: whenever the log is loaded, the key expires a millisecond later than it does live |
| AofData.LoggedExpire | redis-2.6.16/src/aof.c:354-382 | an expire command that became a DEL, or an EXPIREAT or PEXPIREAT, has its live effect at any replay time; EXPIRE and PEXPIRE do if and only if the clock reads the same when they run and when they are logged |
| AofData.LoggedSetEx | redis-2.6.16/src/aof.c:403-410 | SETEX and PSETEX are logged as SET and PEXPIREAT, with the live effect at any replay time if and only if the clock reads the same when they run and when they are logged |
| AofData.LoggedSPop | redis-2.6.16/src/t_set.c:365-392 | SPOP, which takes a member at random, is logged as the SREM of that member, which has the live effect at any replay time |
| AofData.ReplayConcat | redis-2.6.16/src/aof.c:505-556 | replaying two logs one after the other is replaying their concatenation |
| AofLoad.LoadAppendOnlyFile | redis-2.6.16/src/aof.c:476-581 | a file that is the text of any list of commands (within the loader's line limits) is loaded as the replay of those commands, an empty one is reported, and one that ends within a command, or has after one something that does not begin with `*`, is fatal |
| AofLoad.PrefixOfLog | redis-2.6.16/src/aof.c:322-345 | every beginning of a log is the text of some of its commands and of a proper part of the next |
| AofLoad.LoadBeginning | redis-2.6.16/src/aof.c:476-581 | a log cut at any byte: at the end of a command it gives the commands before the cut, anywhere else the server does not start |
| AofBuffer.Append | redis-2.6.16/src/aof.c:89-126 | appending fills the last block, allocates others, and the blocks together hold the old bytes and the new ones |
| AofBuffer.Size | redis-2.6.16/src/aof.c:77-86 | the sum over the blocks is the number of bytes they hold |
| AofBuffer.Write | redis-2.6.16/src/aof.c:131-151 | succeeds exactly when every block is written whole, and then the file got all the bytes in order |
| AofRewrite.RewriteItem | redis-2.6.16/src/aof.c:613-630 | one element: each announced argument count is met when the command it opens is complete, after at most 64 items |
| AofRewrite.RewriteItems | redis-2.6.16/src/aof.c:603-656 | the items of a list, split into commands of at most 64, printed well-formed |
| AofRewrite.ChunksReplay | redis-2.6.16/src/aof.c:603-703 | replaying those commands from nothing gives a list, set or hash of all the items |
| AofRewrite.RewriteKey | redis-2.6.16/src/aof.c:890-915 | the text written for a key is a list of commands that set the key, where there was none, to its value and expire |
| AofRewrite.RewriteDb | redis-2.6.16/src/aof.c:860-917 | the text written for a DB selects it and fills it, when empty, with its keys but for the overdue ones |
| AofRewrite.RewriteAppendOnlyFile | redis-2.6.16/src/aof.c:839-918 | the rewritten log, replayed at any time from empty, rebuilds every DB but for keys overdue at rewrite |
| AofRewrite.RebuildsAll | redis-2.6.16/src/aof.c:839-918 | without overdue keys, it rebuilds exactly the dataset |
| AofRewrite.RewriteAndLoad | redis-2.6.16/src/aof.c:476-918 | a dataset rewritten at one time and loaded at any other is what it was, per DB, expires included, minus the keys overdue at rewrite |
| AofLogs.Fed | redis-2.6.16/src/aof.c:384-432 | feeding a command that changed something, and whose log is durable in the sense of `AofData.LoggedReplays`, keeps a log in step with the live dataset and with the selected DB |
| AofLogs.CallFed | redis-2.6.16/src/aof.c:418-429 | the same for both logs at once, which share one selected DB |
| AofLogs.Flushed | redis-2.6.16/src/aof.c:229-319 | after a flush the file alone replays to the live dataset |
| AofLogs.Forked | redis-2.6.16/src/aof.c:993-1000 | the snapshot log of a new child is in step with the live dataset, the selected DB having been forgotten |
| AofLogs.Renamed | redis-2.6.16/src/aof.c:1111-1148 | the child's log with the differences appended becomes the named file |
| Aof.CatExpireAt | redis-2.6.16/src/aof.c:354-382 | the text of a PEXPIREAT at the absolute time of the command |
| Aof.FeedCommand | redis-2.6.16/src/aof.c:384-416 | the text of a command, after a SELECT if the DB changed |
| Aof.Server.Call | redis-2.6.16/src/redis.c:1659-1717 | a command is executed, recorded as a live state and fed to both logs as needed; the invariant of the logs holds again, if the command, when it is logged, is durable: no SET or RESTORE with a time to live, no relative expire for which the clock went on |
| Aof.Server.Feed | redis-2.6.16/src/aof.c:384-432 | the append buffer when ON, and the rewrite buffer while there is a child, grow by the same text |
| Aof.Server.Flush | redis-2.6.16/src/aof.c:229-319 | nothing happens when the buffer is empty or the write is put off for a background fsync, the time of which is recorded when it is first put off and kept when it is put off again; otherwise the whole buffer goes to the file or the process exits, leaving the part written unless it could be truncated away, and the record is cleared |
| Aof.DelayBounded | redis-2.6.16/src/aof.c:241-259 | of any calls of flushAppendOnlyFile that are all put off, the last comes less than two seconds after the first, however many there are |
| Aof.Server.Stop | redis-2.6.16/src/aof.c:165-188 | after stopping, the file replays to the live dataset if the log was ON; a child is gone |
| Aof.Server.RewriteBackground | redis-2.6.16/src/aof.c:955-1003 | a child starts only when there is none and fork works; its log is in step with the dataset and the selected DB is forgotten |
| Aof.Server.Start | redis-2.6.16/src/aof.c:192-209 | the log waits for a rewrite exactly when opening and forking work and there is no child; the file still stands for the same live state |
| Aof.Server.RewriteDone | redis-2.6.16/src/aof.c:1042-1176 | the file is replaced exactly when the child succeeded and the differences were written and the rename worked; then it is the child's file and the differences, which replay to the live dataset when ON; otherwise nothing changed, and a start still waiting has a rewrite scheduled |
| Aof.Server.Restart | redis-2.6.16/src/aof.c:476-581 | in any state, loading the file gives a present or past live state, never an older one than before, and the present one when ON with an empty buffer |
| Aof.Server.RestartAfterShortWrite | redis-2.6.16/src/aof.c:267-288 | after a write that was cut short and could not be truncated away, as after a run that ended with it, the next start loads the commands before the cut if the write ended with a command, and refuses to start if not |
| Aof.Server.LogsReplay | redis-2.6.16/src/aof.c:165-432 | in every state the run can reach: replayed at any time, the file gives a past or present live state; when the log is ON, the file and the buffer give the present one, and so do the child's file and the differences unless it is OFF |
| Aof.Server.Happen | redis-2.6.16/src/aof.c:165-1176 | any one of a command, a flush, a stop, a start, a rewrite and the end of a child does what it should to the dataset, the history, the file and the child, and keeps the invariant; or the process exits with a file that is the log and a beginning of the buffer; the history only grows and the file never goes back in it |
| Aof.Server.Follow | redis-2.6.16/src/aof.c:165-1176 | the same over every schedule of such events, with every answer of the environment; the live states are those that the accepted commands run through, one after the other, and the dataset is the last of them |
| Protocol.Client.FindCR | redis-2.6.16/src/networking.c:859-868 | strchr for CR, stopping at a NUL |
| Protocol.LineAhead | redis-2.6.16/src/networking.c:859-892 | what a part of a well-formed header line, of any length, can and cannot contain |
| Protocol.Client.ReadCount | redis-2.6.16/src/networking.c:853-892 | of any bytes: a count of 1 to 1048576 is taken, a count of 0 or less leaves the buffer and the client goes on, a number above or no number closes the connection, so does a line beyond 64 KB, and less than a line waits; on a well-formed stream nothing is refused and less than 23 bytes wait |
| Protocol.Client.ReadBulkHeader | redis-2.6.16/src/networking.c:896-943 | of any bytes: `$` and a length up to 512 MB is taken, with the shift of the buffer for a big argument; any other line closes the connection and leaves the buffer from its header on; never so on a well-formed stream |
| Protocol.Client.ReadBulkBody | redis-2.6.16/src/networking.c:946-971 | the bytes of the argument become the next one, whole, by copy or by handing over the buffer, and leave the buffer; or they are not all there and nothing changes |
| Protocol.Client.ReadArgument | redis-2.6.16/src/networking.c:895-971 | of any bytes: what the header and the bytes of an argument together make of the client, whether the header was read before or not |
| Protocol.Client.ProcessMultibulkBuffer | redis-2.6.16/src/networking.c:848-982 | on a well-formed stream, either the next request is complete in `argv` or the parser waits for bytes that are still to come; on any bytes, a count of 0 or less is a request without arguments, and a refused count line closes the connection |
| Protocol.Client.ProcessInputBuffer | redis-2.6.16/src/networking.c:984-1021 | the commands that arrived whole are executed in order, and what is left is a state from which the rest can be read; a connection that is closing executes nothing |
| Protocol.Client.ReadQuery | redis-2.6.16/src/networking.c:1023-1082 | a read of at most the length that the server asks for keeps this, and the buffer stays below the inline limit, so a well-formed client is never refused; a client is freed exactly when its buffer exceeds 1 GB |
| Protocol.Serve | redis-2.6.16/src/networking.c:848-1082 | every list of requests, commands within the limits on counts and lengths and counts of 0 or less, such as `*-10`, printed and read in pieces of any sizes: exactly the commands are executed, in order |
| OutputQueue.Client.PrepareClientToWrite | redis-2.6.16/src/networking.c:125-134 | when a reply may be queued; the write handler is installed for an online client |
| OutputQueue.Client.AddToBuffer | redis-2.6.16/src/networking.c:156-171 | takes the bytes only if the list is empty and they fit, and then they are accepted last |
| OutputQueue.Client.AddToList | redis-2.6.16/src/networking.c:173-264 | glues the bytes to the last node or adds a node; either way they are accepted last |
| OutputQueue.Client.AddReply | redis-2.6.16/src/networking.c:271-325 | buffer, then list: bytes already sent and bytes still queued together are all accepted replies in order |
| OutputQueue.Client.AddReplyInt | redis-2.6.16/src/networking.c:271-305 | an integer object is queued as its print |
| OutputQueue.Client.AddDeferred | redis-2.6.16/src/networking.c:374-381 | a placeholder is accepted for a length that is not known yet |
| OutputQueue.FilledIsFill | redis-2.6.16/src/networking.c:384-407 | setting the node, gluing it to the next one if that has a value, fills the placeholder and changes no other byte |
| OutputQueue.Client.SetDeferred | redis-2.6.16/src/networking.c:384-407 | the length takes the place that was kept for it among the accepted replies |
| OutputQueue.Client.SendBuffer | redis-2.6.16/src/networking.c:709-727 | a write of the buffer sends its next bytes, as many as write took, or none |
| OutputQueue.Client.SendNode | redis-2.6.16/src/networking.c:728-752 | a write of the first node sends its next bytes, as many as write took, or none; an empty node is dropped |
| OutputQueue.Client.SendReplyToClient | redis-2.6.16/src/networking.c:701-784 | for any lengths that write returns: the sent bytes only grow, and are still a prefix of the accepted replies; the loop ends exactly with a write that took nothing, with an empty queue, or as soon as more than the limit was sent while memory is not short; the handler is removed exactly with an empty queue; the client is freed if and only if the last write failed with another error than EAGAIN, or the queue is empty and it was to be closed |
| Crc64.TableOk | redis-2.6.16/src/crc64.c:42-171 | each of the 256 entries is eight bit-serial steps of its index |
| Crc64.StepDivides | redis-2.6.16/src/crc64.c:1-11 | a step of the reflected register is a step of the division by the announced polynomial |
| Crc64.ReflectBit | redis-2.6.16/src/crc64.c:7-9 | what reflection means: bit i of a register is bit 63 - i of its mirror |
| Crc64.Crc64 | redis-2.6.16/src/crc64.c:173-181 | the table-driven loop computes the bit-serial register, whose reflection is the remainder of the division of the reflected message |
| Crc64.SerialDivides | redis-2.6.16/src/crc64.c:173-181 | the bit-serial register, reflected, is that remainder, for every start value and message |
| Crc64.SerialConcat | redis-2.6.16/src/rio.c:139-141 | the checksum of a concatenation is the checksum of the second part continued from the first, for any chunking |
| Crc64.SerialXor | redis-2.6.16/src/crc64.c:173-181 | the checksum of the XOR of equally long messages is the XOR of their checksums, for start values that XOR likewise |
| Crc64Detects.SerialInjective | redis-2.6.16/src/crc64.c:173-181 | the same bytes never take different registers to the same one |
| Crc64Detects.BurstDetected | redis-2.6.16/src/crc64.c:173-181 | two messages of one length that differ within 8 consecutive bytes have different checksums |
| Crc64.CheckValue | redis-2.6.16/src/crc64.c:11-11 | from start value 0 the digits 1 to 9 give the announced check value |
| Crc64.CheckValueOfOnes | redis-2.6.16/src/crc64.c:8-8 | from the announced start value, all ones, they do not |
| RioStream.Rio.Write | redis-2.6.16/src/rio.h:76-79 | bytes are handed over and the running checksum is that of everything so far, whether or not the write succeeds; stdio holds what was handed over if and only if every write succeeded, which does not mean that it is on the disk (see `RioStream.Rio.Flush`) |
| RioStream.Rio.Flush | redis-2.6.16/src/rdb.c:692-695 | at the end all that stdio took reaches the disk, or a part at the end of the file is lost, and nobody is told |
| RioStream.Rio.Read | redis-2.6.16/src/rio.h:81-87 | all of the bytes asked for or nothing, and the running checksum is that of everything read, however it was cut |
| RioStream.GetPutSum | redis-2.6.16/src/rdb.c:688-690 | the eight little-endian bytes of a checksum are read back |
| RioStream.SumDiffers | redis-2.6.16/src/rdb.c:1157-1168 | damage within 8 consecutive bytes changes the checksum of a stream |
| RdbStrings.HeadBytes | redis-2.6.16/src/rdb.c:111-135 | the first byte tells which of the 6, 14 and 32 bit forms, or an encoding, follows, and the value is got back |
| RdbStrings.WriteRaw | redis-2.6.16/src/rdb.c:43-47 | the bytes are appended, or the caller is told |
| RdbStrings.SaveLen | redis-2.6.16/src/rdb.c:82-106 | the length in the shortest form that holds it, and its size or -1; the failure of the second write of a long length is not reported (line 102 compares with -4), and the length is whole exactly if both writes succeeded |
| RdbStrings.LoadLen | redis-2.6.16/src/rdb.c:111-135 | reads back whichever form was written, or fails because a part of it is missing |
| RdbStrings.EncodeInteger | redis-2.6.16/src/rdb.c:141-161 | the narrowest of 8, 16 and 32 bits, two's complement, or nothing |
| RdbStrings.Strtoll | redis-2.6.16/src/rdb.c:196-210 | the C library's conversion, on every string: white space, sign, digits, saturation, and where it ends; it reads back a printed number to its end |
| RdbStrings.TryIntegerEncoding | redis-2.6.16/src/rdb.c:196-210 | a string is encoded as an integer exactly if it is what a 32-bit number prints as |
| RdbStrings.SaveLzfString | redis-2.6.16/src/rdb.c:212-247 | the compressed form, when four bytes shorter, decodes to the string; equal octets take it whenever that saves eight bytes, octets that all differ never |
| RdbStrings.SaveRawString | redis-2.6.16/src/rdb.c:270-300 | an integer form exactly for the print of a 32-bit number; else verbatim, unless compression is on and the string longer than 20 bytes; then compressed if that saves four bytes, as it does for any equal octets |
| RdbStrings.SaveLongLong | redis-2.6.16/src/rdb.c:303-319 | an integer object is saved in an integer form exactly if it fits 32 bits, else as its print |
| RdbStrings.LoadInteger | redis-2.6.16/src/rdb.c:166-191 | sign and width restored, then printed |
| RdbStrings.LoadLzfString | redis-2.6.16/src/rdb.c:249-266 | the compressed form gives back the string |
| RdbStrings.LoadString | redis-2.6.16/src/rdb.c:333-359 | whichever form was written, the string comes back and the stream is just after it, if the file has not lost a part of it; if it has, the caller is told |
| RdbStrings.RoundTrip | redis-2.6.16/src/rdb.c:196-359 | every string shorter than 2^32 - 1, with compression on or off, with checksums on or off, comes back as it was |
| RdbSave.SaveObject | redis-2.6.16/src/rdb.c:478-595 | the strings of the object, in some order for sets and hashes, each in the form that `RdbStrings.SaveRawString` chooses, make up the object, or a failed write is reported |
| RdbSave.SaveKeyValuePair | redis-2.6.16/src/rdb.c:611-627 | an expired key is skipped; any other is one record with its expire |
| RdbSave.SaveDb | redis-2.6.16/src/rdb.c:655-680 | the records of a DB, loaded at any time, fill it with its unexpired keys |
| RdbSave.Save | redis-2.6.16/src/rdb.c:630-716 | told that all is well, the caller has a whole dump, whose records rebuild the dataset, if and only if no write failed and the flush at the end lost nothing; with checksums on, the dump ends with the CRC-64 of all before it, else with 0; the failures not told are those of the last bytes of a long length, of the checksum, and of fflush, fsync and fclose |
| RdbLoad.LoadObject | redis-2.6.16/src/rdb.c:772-948 | the object that its strings make up, through the counts; a type that is none is refused |
| RdbLoad.LoadRecord | redis-2.6.16/src/rdb.c:1094-1138 | one turn of the loop reads the next record as it was written, its expire in milliseconds or, in older dumps, in seconds; or fails because a part of it is missing |
| RdbLoad.NextRecord | redis-2.6.16/src/rdb.c:1094-1126 | while loading, the next record or the EOF opcode is what lies ahead |
| RdbLoad.RecordLoaded | redis-2.6.16/src/rdb.c:1128-1156 | a record read takes the dataset one step along the records |
| RdbLoad.SumRead | redis-2.6.16/src/rdb.c:1157-1168 | when only the stored checksum is left, the reader's running checksum equals it, though reader and writer cut the bytes differently |
| RdbLoad.Verify | redis-2.6.16/src/rdb.c:1157-1168 | accepts exactly a checksum of 0, or that of all bytes read before it, if it is all there |
| RdbLoad.DamageShows | redis-2.6.16/src/rdb.c:1157-1168 | a dump damaged within 8 consecutive bytes, its checksum not 0, does not end well where it ended before, so it is refused unless its reading ends elsewhere |
| RdbLoad.Load | redis-2.6.16/src/rdb.c:1062-1169 | what is left of a well-formed dump is loaded if and only if nothing is missing (with checksums off, nothing but bytes of the checksum), and then as its records say; a file that does not begin as a dump, or names a version that is not 1 to 6, is refused; any file of a version with a checksum that is accepted held, where reading ended, a checksum of 0 or that of all bytes before it |
| RdbLoad.SaveAndLoad | redis-2.6.16/src/rdb.c:630-1169 | if no write failed, a dataset saved and loaded again is what it was, per DB and expire, minus the keys overdue at save, and at load unless there is a master; if the flush lost a part of the file it is refused, unless checksums are off and only bytes of the checksum are missing |
| RdbLoad.SaveDamageAndLoad | redis-2.6.16/src/rdb.c:630-1169 | a dump saved with checksums on, its checksum not 0, is damaged within 8 consecutive bytes before that checksum: it is refused, or its reading ends elsewhere, or the damage makes it a version without checksums |
| MultiHistory.StaleSnoc | redis-2.6.16/src/multi.c:261-305 | how one more event changes whether a watched key of a client was touched |
| MultiHistory.WholeQueue | redis-2.6.16/src/multi.c:56-84 | the queue of an open transaction is all that the client sent since MULTI exactly when none of it was refused, in whatever way |
| MultiHistory.RefusedWriteRuns | redis-2.6.16/src/redis.c:1787-1795 | MULTI, a write that a read-only slave refuses, a read, EXEC: an error was answered while queueing, nothing is flagged, and the shortened queue will run |
| MultiHistory.FourReasons | redis-2.6.16/src/redis.c:1787-1823 | what was refused in an open transaction that is not flagged is a write on a read-only slave, a command while loading, a MULTI or a WATCH, and nothing else: no client has a transaction open while it is subscribed |
| MultiServer.AgreeWatch | redis-2.6.16/src/multi.c:202-229 | adding to both the index and the client keeps them in agreement |
| MultiServer.TouchHits | redis-2.6.16/src/multi.c:261-278 | the clients that the index lists under a key are those that watch it |
| MultiServer.Server.WatchForKey | redis-2.6.16/src/multi.c:202-229 | the client watches the key from now on, once; no other state changes |
| MultiServer.Server.UnwatchAllKeys | redis-2.6.16/src/multi.c:233-257 | the client's list and its entries in the index are gone, empty lists of the index too |
| MultiServer.Server.TouchWatchedKey | redis-2.6.16/src/multi.c:261-278 | exactly the clients that watch the key become dirty |
| MultiServer.Server.TouchWatchedKeysOnFlush | redis-2.6.16/src/multi.c:284-305 | exactly the clients that watch a key which exists in the flushed DB become dirty |
| MultiServer.Server.QueueMultiCommand | redis-2.6.16/src/multi.c:56-70 | the command is queued last |
| MultiServer.Server.FlagTransaction | redis-2.6.16/src/multi.c:81-84 | an open transaction is marked so that EXEC fails |
| MultiServer.Server.RefuseCommand | redis-2.6.16/src/redis.c:1741-1839 | an error reply is kept in the history, and flags the transaction for the reasons for which the code does |
| MultiServer.Server.MultiCommand | redis-2.6.16/src/multi.c:86-93 | opens a transaction, or refuses to nest, which does not flag it |
| MultiServer.Server.DiscardCommand | redis-2.6.16/src/multi.c:95-102 | the queue, the flags and the watches are gone, or an error without MULTI |
| MultiServer.Server.WatchCommand | redis-2.6.16/src/multi.c:307-317 | watches all its keys, or refuses inside MULTI, which does not flag the transaction |
| MultiServer.Server.UnwatchCommand | redis-2.6.16/src/multi.c:319-323 | no watched keys, no dirty mark |
| MultiServer.Server.RunEffects | redis-2.6.16/src/pubsub.c:54-167 | the touches, flushes and (un)subscriptions of a command enter the history, exactly and in order; they change the marks of other clients and nothing else of them, give this client the subscriptions they say, and open or end no transaction |
| MultiServer.Server.ExecCommand | redis-2.6.16/src/multi.c:114-182 | over every history: EXEC runs the queue, whole and in order, and the touches of its commands enter the history, if and only if a transaction is open, no watched key was touched since it was watched and no flagging refusal happened; it runs every command sent since MULTI if and only if nothing was touched and nothing was refused in any way; and it runs fewer exactly when the only refusals were of the kinds that do not flag |
| MultiServer.Server.FlagsMean | redis-2.6.16/src/multi.c:202-324 | the flags and the queue of a client are exactly what its history says |
| MultiServer.Server.FreeClient | redis-2.6.16/src/networking.c:598-678 | a client that goes leaves no entry in the index |
| MultiServer.Server.Connect | redis-2.6.16/src/networking.c:52-109 | a new client watches nothing and has no transaction |
| Commands.Check | redis-2.6.16/src/redis.c:1740-1839 | the first reason to refuse a command that applies, in the order of the code, or none |
| Commands.ProcessCommand | redis-2.6.16/src/redis.c:1727-1854 | a command is refused for that reason, and the transaction flagged or not; or queued, inside MULTI; or called, and then the history grows by exactly what MULTI, EXEC, DISCARD, WATCH, UNWATCH or the effects of the command are, with the reply that goes with it. That a client with an open transaction is in no Pub/Sub context is kept by every command, subscribing within EXEC included, so that this reason never refuses a command of a transaction |
| Commands.TouchThenExec | redis-2.6.16/src/multi.c:114-305 | two clients: one watched a key and has a transaction open; the other calls a command that touches or flushes it, alone or in a transaction; then EXEC of the first runs nothing |
| Popcount.TableCounts | redis-2.6.16/src/bitops.c:65-65 | the 256 byte table counts the set bits of its index |
| Popcount.WordCounts | redis-2.6.16/src/bitops.c:77-88 | the bit-parallel steps and the multiplication count the bits of a 32-bit word |
| Popcount.Popcount | redis-2.6.16/src/bitops.c:61-94 | for every byte string, 16 bytes at a time and the tail by the table, the number of its set bits |
| Bitop.NthApply | redis-2.6.16/src/bitops.c:270-281 | an operator on a word is the operator on each of its bytes |
| Bitop.BlockOp | redis-2.6.16/src/bitops.c:271-281 | four words combined in place are 32 bytes combined, and no other byte changes |
| Bitop.LookupSources | redis-2.6.16/src/bitops.c:218-249 | the strings of the keys, a missing one being empty, with their least and greatest length, or a type error |
| Bitop.FastPath | redis-2.6.16/src/bitops.c:257-320 | the bytes before `j` are final, those up to the least length still those of the first string |
| Bitop.OneByte | redis-2.6.16/src/bitops.c:323-335 | the byte at one index, strings that have ended giving zero |
| Bitop.MaxLenIsMax | redis-2.6.16/src/bitops.c:247-247 | the greatest length is that of some string and at least that of each |
| Bitop.BitopCommand | redis-2.6.16/src/bitops.c:188-354 | for every operator, number of keys and mix of lengths: the result is as long as the longest string and each byte is the zero-padded byte-by-byte combination; errors exactly for NOT of several keys and for keys of another type |
| Bitop.FoldBit | redis-2.6.16/src/bitops.c:270-335 | a bit of the result is set if and only if it is set in all strings (AND), in some (OR), in an odd number (XOR), or not in the only one (NOT), bits beyond the end of a string being 0 |
| Bio.ProcessKeeps | redis-2.6.16/src/bio.c:162-176 | the node that the worker holds is the oldest whose job was not executed |
| Bio.Queue.Append | redis-2.6.16/src/bio.c:132-132 | a new job goes last |
| Bio.Queue.Signal | redis-2.6.16/src/bio.c:134-134 | the worker is not left asleep |
| Bio.Queue.Ask | redis-2.6.16/src/bio.c:187-193 | the value is the length of the list; 0 means that every job created before is complete, and it is never off by more than the one job being finished |
| Bio.Queue.TakeOrWait | redis-2.6.16/src/bio.c:157-163 | the worker sleeps only on an empty list, else holds the first node |
| Bio.Queue.Process | redis-2.6.16/src/bio.c:168-176 | the job executed is the oldest one not executed before |
| Bio.Queue.Delete | redis-2.6.16/src/bio.c:180-181 | the node deleted after locking again is still the first one, that of the job just executed |
| Bio.Queue.Run | redis-2.6.16/src/bio.c:124-193 | under every interleaving of creators, askers and the worker, each step of which is pinned: mutual exclusion, the count equal to the list between critical sections, jobs executed once each in order, no lost wake-up |
| Bio.Queue.Drain | redis-2.6.16/src/bio.c:138-184 | from any reachable state outside a critical section, the worker alone executes all jobs created and then sleeps with nothing pending |
| Rand.MulSplits | redis-2.6.16/src/rand.c:50-51 | the product of two limbs, wrapped to a signed 32-bit int, still splits into its low and high limb |
| Rand.AddLimbs | redis-2.6.16/src/rand.c:83-92 | the manual carries account for everything that leaves the low limbs |
| Rand.NextLimbs | redis-2.6.16/src/rand.c:80-93 | the three limbs hold 0x5DEECE66D * X + 0xB modulo 2^48 |
| Rand.Generator.Srand48 | redis-2.6.16/src/rand.c:76-78 | the state becomes 0x330E below the 32 bits of the seed, negative seeds included |
| Rand.Generator.Lrand48 | redis-2.6.16/src/rand.c:71-74 | after any seed and any number of calls the output is the state of the 48-bit recurrence shifted right by 17 |
| Rand.IterIs | redis-2.6.16/src/rand.c:80-93 | the state after n calls in closed form |
| Rand.FullPeriod | redis-2.6.16/src/rand.c:80-93 | from any state the generator returns to it after n calls exactly when 2^48 divides n |

## Left out

What some members do not say:

- Aof.Server.Call: is about commands whose log is durable, while the log is not OFF: not a SET or a RESTORE with a time to live, nor a relative expire for which the clock goes on before it is logged (`AofData.LoggedReplays` says when, the lemmas `...Drifts` why), and about absolute times that fit 64 bits; expiry of a key is an explicit DEL; the server has no master. Commands not listed in `AofData.Proc` are an arbitrary function of the dataset, the selected DB and their arguments, logged as they are. That excludes every command that reads the clock in another way, a script that calls EXPIRE or SETEX included (the inner call does not propagate, `scripting.c:293`), every one that chooses at random, but for SPOP, and every one that is logged in another form: INCRBYFLOAT and HINCRBYFLOAT, MIGRATE, EVALSHA, and blocking pops.
- Aof.Server.Follow: an event that cannot happen in the state it meets, and a command that is outside what Aof.Server.Call is about, are skipped.
- Aof.Server.RewriteBackground: the snapshot holds no key that is overdue at the child's clock, so that the child's log can equal the live dataset (`AofRewrite.RewriteAppendOnlyFile` covers overdue keys).
- Aof.Server.Start: when fork fails after the file was opened, the descriptor field stays set as in the code, and nothing is claimed about it.
- Aof.Server.Flush: the file is a byte sequence that survives a crash; what fsync makes durable and when is not modelled, beyond the write that is put off while a background fsync runs.
- AofLoad.LoadAppendOnlyFile: of a file that is no beginning of a log it is only said that a command that does not begin with `*` is fatal; a MULTI block in the log is not modelled, nor is the server's serving of clients while loading.
- AofRewrite.RewriteAppendOnlyFile: write errors abandon the temporary file in the code; here the writes succeed. Sorted sets, their scores and the differing loops over ziplists, intsets and tables are not modelled: a collection is its items in an arbitrary order (a list in its own).
- Protocol.Serve: commands neither block nor close the client; inline requests, and the reply to a protocol error, are left to an arbitrary parser state.
- Protocol.Client.ReadQuery: the query buffer's memory limit and its free space are not modelled.
- OutputQueue.Client.AddToList: replies are bytes; sharing of reply objects, their reference counts, the `reply_bytes` account and the limits that close a slow client are not modelled.
- OutputQueue.Client.SetDeferred: the caller passes a node that is still in the list, as every caller in the repository does before the next write.
- LzfC.Compress: the input lies beyond the first 8192 addresses of memory, so that a table slot which holds a small number cannot pass for an offset; what is written for octets that are neither all equal nor all different depends on the table, and only `LzfC.Turn` says what it is.
- Pqsort.ChoosePivot: says only that the pivot is in the range; its choice affects speed alone.
- DictClass.Dict.Expand: sizes do not overflow the machine word; a bucket is a sequence of entries rather than linked nodes, so node identity, and freeing a value after it was replaced, are not modelled.
- DictIteration.SafeIterator.Next: the saved next entry is known by its key, keys being unique.
- IntsetClass.Intset.MoveTail: byte counts do not exceed 32 bits.
- RdbStrings.SaveRawString: counts of bytes written are not kept in an `int`, as the code does, where those of strings beyond 2^31 bytes would overflow.
- RdbSave.SaveObject: ziplists and intsets are saved as one string, whose content is read by an arbitrary function (`Unpack`), the same at save and load; sorted sets and zipmaps are not modelled.
- RdbSave.Save: when stdio passes bytes on is not modelled: a write is taken whole or in part, and what a flush loses is lost at the end of the file; nor is what rename reports, or a crash of the machine.
- RdbLoad.LoadObject: a collection is its items, whatever encoding the loader picks; the two loops for a hash, before and after its conversion to a table, are one.
- RdbLoad.Load: of a file that is no dump and no beginning of one, only what an accepted one must end with and what its beginning must be is stated.
- MultiServer.Server.TouchWatchedKey: which commands signal a change is not modelled; a client is a value in a map, and the watch lists hold client ids.
- MultiServer.Server.ExecCommand: the commands run are recorded and their touches applied; their replies and the MULTI and EXEC that are sent to slaves are not.
- Commands.ProcessCommand: QUIT is not modelled, nor are the keys that freeMemoryIfNeeded evicts; what other commands do is an arbitrary list of touches, flushes and changes of the client's own subscriptions, whose index by channel is not modelled.
- Popcount.Popcount: words are little-endian.
- Bitop.BitopCommand: words are 8 bytes, little-endian; the reply and the storing of the result (an empty one deletes the target) are not modelled.
- Bio.Queue.Run: one queue for each job type, as in the code, each with its own worker; `close` and `fsync` are recorded as effects.

Parts of the repository that are not modelled:

- The LZF variants other than the configured one (`lzfP.h`: no table initialisation, VERY_FAST, checked input).
- `dict.c`: unsafe iterators with their fingerprint, random keys, the built-in hash functions, time-boxed rehashing.
- `networking.c`: accepting and freeing connections, CLIENT, slaves and MONITOR, blocking operations.
- `bitops.c`: SETBIT, GETBIT and the range arguments of BITCOUNT, around the kernels that are modelled.
- `rdb.c`: the background saver, the `%.17g` double codec, dumps that announce a version before 6 (expires in seconds, which they had, are read).
- BGREWRITEAOF inside MULTI, AOF and RDB interplay with replication, `redis-check-aof`.
- Ziplists, zipmaps, skiplists, sds and adlist internals: abstract sequences, sets and maps, since each would be a project of its own.
- Sockets, event loop back ends, configuration, debugging, benchmarks, memory tests: I/O and plumbing.
- `srcs/`: scripts around HTTP, Redis and MySQL, whose logic is in those systems; the commission recursion in `srcs/rateReport.py` telescopes in one short induction.
