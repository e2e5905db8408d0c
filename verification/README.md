# Cause-justified change monitoring, verified

A Dafny model of the auditing core of the repository and proofs about it. The monitor sees two
channels of events: changes of protected state, and authorized causes. It sorts both into time
windows and, when a window closes, reports who changed without a cause, who had a cause and did
not change, whose derived cause has no root, and whose amounts do not add up. Beside it stand the
settlement checkpoint, the Redis form of the set difference, the identity map and the hash-chained
report.

## How it is laid out

| file | what it holds |
|---|---|
| `Words.dfy`, `BitSets.dfy` | 64-bit words bit by bit; the bit vector as a class over an array of words, each operation proved to be a set operation |
| `Bitmaps.dfy`, `RedisBits.dfy` | the Redis bitmap commands on byte strings; the store as a class over a server, and exactly what its difference returns |
| `Encoding.dfy`, `IdMaps.dfy`, `InternThreads.dfy` | numerals and NUL-terminated fields; the identity map as a class, its checksum and snapshots; its double-checked locking as interleaved steps |
| `Reports.dfy` | the report writer as a class, the verifier as a loop, and what a head determines |
| `Ledger.dfy`, `Checkpoint.dfy` | the decision of a settlement against leg-by-leg transfer; the book as a class, with its failure history and gate |
| `Times.dfy`, `Engine.dfy` | windows and keys; the monitor's operations on values |
| `Meaning.dfy` | what observing, closing and reporting come to in plain fields, sums and comparisons, with none of the engine's own functions |
| `Trace.dfy` | the specification: what a recorded run means, in actor names and their order of first appearance |
| `Refinement.dfy`, `Sequential.dfy` | every run of the engine reports what its trace means; runs of one thread, panics, closing times, lateness |
| `Closing.dfy` | closing threads and arriving events interleaved at the lock-release points |
| `Delivery.dfy` | exactly when delivery order is irrelevant |
| `Monitors.dfy`, `Runs.dfy` | the monitor as a class over bit vectors, maps and the identity map, proved against the engine, and run whole |
| `Interleavings.dfy` | the closing threads on that class, each holding the window object it has detached |
| `Ints.dfy`, `Sorting.dfy`, `Options.dfy` | fixed-width integers and sums, sorted listings, options |

Two chains of results meet in `Runs.Play`. Going up from the machine: words are bits, words make
sets, windows of sets behave as the engine on values. Coming down from the meaning: the engine's
state after any steps is the one the trace of those steps describes, and which windows an operation
closes is read off the operations alone, so what a closing operation returns is what the trace says.
The specification knows no vectors, maps or open windows; of ids it uses only an actor's place in the
order of first appearance, because actors past the capacity are not accepted and their alert shows
the id. `Interleavings.Interleave` joins the same two chains for threads.

Instants are integers in nanoseconds since the Unix epoch; a window is keyed by its start wrapped
to an int64, as `UnixNano` does. Balances, deltas and amounts are int64 with wrap-around. The clock
is a parameter.

Reading the code gave these results, each proved for all inputs:

- A configuration with a negative evidence bound and amount checking panics while rendering its
  first amount mismatch (`internal/monitor/monitor.go:384-387`, the map set to nil at 415-417).
  Every other configuration never panics: `Sequential.ApplySucceeds`, `Sequential.OtherwiseItPanics`.
- `Pin` writes a zero at bit `capacity - 1`. Its comment calls it safe at any time
  (`internal/redisbits/redisbits.go:76-78`), but a member with that id is removed, and `Difference`
  pins both sets at close. The pinned answer is the difference exactly when that id is not in it:
  `RedisBits.PinnedIsExact`.
- Delivery order is irrelevant exactly when the id space has room for all actors of the events, or
  for no new one: `Delivery.OrderFreeExactly`. Windows 2^64 nanoseconds apart share a key, and of
  events in two such windows the first decides which one is reported: `Delivery.SharedKeyOrderMatters`.
- The id-map comment says two replicas agree if and only if their checksums match. For NUL-free keys
  that holds up to a digest collision (`IdMaps.ChecksumsAgree`). Among all keys, every assignment of
  two or more shares its checksum with another, and an assignment is told from every other exactly
  when it is empty or one key that does not read as two: `IdMaps.NulInKeyDefeatsChecksum`,
  `IdMaps.TextUnsharedExactly`.
- `Append` sets no limit on the length of a line and `Verify` reads lines of at most 16 MiB
  (`internal/report/report.go:131-131`): an honest report with a longer line is refused from there
  on. It is accepted whole if and only if every line fits: `Reports.WrittenReportVerifies`,
  `Reports.LongPayloadIsRefused`.
- `Encode` marshals payloads anew, which drops white space and escapes HTML characters. Entries come
  back as they were exactly when that changes no payload and every line fits:
  `Reports.EncodeKeepsEntries`, `Reports.RenderedBackChains`.
- `Union` with an operand of larger capacity can set bits at or above the capacity; the vector
  stays valid exactly when the operand has no such member: `BitSets.BitSet.Union`.
- Netting in int64 can decide otherwise than leg-by-leg transfer over unbounded integers. It accepts
  wrongly exactly when some party's exact balance is below the int64 range, and refuses wrongly
  exactly when one is past it and wraps to a negative: `Ledger.CommitLeavesNobodyNegative`,
  `Ledger.RefusedThoughSound`, with an input in `Ledger.UnboundedDecisionDiffers` and a bound that
  rules both out in `Ledger.BoundedNeverWraps`.

## Model

| member | source | states |
|---|---|---|
| `Runs.Play` | internal/monitor/monitor.go:170-396 | any sequence of events, CloseDue and CloseAll run through a new in-place monitor over any identity map, empty or loaded, leaves the engine's state, returns what the engine returns and, where the configuration rules out the panic, each closing returns exactly the ingest alerts since the last drain and the findings of the windows that the operations so far make it close |
| `Runs.Perform` | internal/monitor/monitor.go:218-337 | each public operation of the class is the corresponding operation on values, state and returned alerts alike |
| `Interleavings.Interleave` | internal/monitor/monitor.go:218-396 | any interleaving of events and closing threads on the in-place monitor, each thread keeping the window object it detached: monitor, threads and everything returned are those of the schedule of values, so returned, held and pending alerts together are exactly what was raised and found; it ends early only in the panic |
| `Interleavings.HeldIsNeverWritten` | internal/monitor/monitor.go:347-396 | any further operations leave a detached window object as it was when it was detached |
| `Interleavings.Act` | internal/monitor/monitor.go:301-356 | each locked or unlocked step of a thread keeps monitor and threads the system of values, and every held window apart from the open ones |
| `Interleavings.Take` | internal/monitor/monitor.go:347-356 | the locked step of closing moves one window object from the monitor to the thread |
| `Refinement.RunRefines` | internal/monitor/monitor.go:193-396 | after every step of every run: the known ids, closed keys and pending alerts are those of the trace, and each open window holds exactly the four sets, the sums modulo 2^64 and the first evidence lines the trace defines for it |
| `Refinement.DetachReportsTrace` | internal/monitor/monitor.go:347-419 | reporting a detached window, however much is interned in the meantime, gives exactly changed minus justified, justified minus changed, derived minus rooted and the mismatched sums, by actor name in order of first appearance; it fails exactly when the amount finding has no evidence map |
| `Refinement.HoldsAbsorb` | internal/monitor/monitor.go:232-246 | absorbing an accepted event under the actor's id keeps the window equal to what the trace records by name |
| `Refinement.AdmitsMeans` | internal/monitor/monitor.go:186-270 | an event is let through to a key exactly when its producer is no outsider and the key is the int64 form of the start of the window that contains its time |
| `Refinement.AcceptedInWindow` | internal/monitor/monitor.go:186-246 | over any trace, the time of an accepted event lies in the window it is reported in, where the events of a key fall in one window |
| `Refinement.FittingTimesHaveOneStart` | internal/monitor/monitor.go:193-195 | times whose windows an int64 can hold always do |
| `Refinement.KindsMean` | internal/monitor/monitor.go:287-292 | the derived and the rooted actors are those of accepted causes whose kind the configuration maps to true |
| `Refinement.NamesInOrder` | internal/idmap/idmap.go:76-86 | the ascending ids of a set of actors, named, are those actors in the order of first appearance, none of them unmapped |
| `Refinement.ChangedHasLines` | internal/monitor/monitor.go:207-211 | an actor with an accepted change has an evidence line |
| `Refinement.MismatchMatches` | internal/monitor/monitor.go:370-393 | the amount finding names exactly the changed actors whose summed deltas and amounts differ modulo 2^64, with both sums; rendering fails exactly for a negative evidence bound with amounts checked and a mismatch present |
| `Sequential.SequentialRunReportsTrace` | internal/monitor/monitor.go:301-345 | over every sequential run, CloseDue and CloseAll return the alerts raised since the last drain and then, in ascending window order, the findings of the windows they close, where those windows and the trace are read off the operations alone |
| `Sequential.TargetsAreClosedBy` | internal/monitor/monitor.go:301-332 | the windows the engine closes are those an earlier event opened, no earlier operation closed and, for CloseDue, whose end plus grace is not after the given time |
| `Sequential.ApplySucceeds` | internal/monitor/monitor.go:376-393 | unless the evidence bound is negative and amounts are checked, no operation of any run panics |
| `Sequential.OtherwiseItPanics` | internal/monitor/monitor.go:377-419 | with a negative evidence bound and amounts checked, one change event and a CloseAll panic |
| `Sequential.WindowsCloseWhenDue` | internal/monitor/monitor.go:301-337 | after any run a window is closed exactly when an earlier operation found it opened and, for CloseDue, its start plus size plus grace at most the given time; it is open exactly when opened and not closed, so it never reopens |
| `Sequential.LateMeansClosed` | internal/monitor/monitor.go:193-228 | a trusted event is reported late exactly when its window was closed earlier in the run, not when its grace has merely passed |
| `Sequential.CloseEffect` | internal/monitor/monitor.go:301-356 | a closing operation closes exactly its targets and leaves every other window as it was |
| `Closing.EveryInterleavingAccounted` | internal/monitor/monitor.go:301-356 | over every interleaving of arriving events with any number of closing threads at the lock-release points: what was returned, what threads hold, and what is pending together are exactly the ingest alerts raised and the findings of the windows taken, each once |
| `Closing.QuiescentReturnsEverything` | internal/monitor/monitor.go:301-345 | with no closing in progress and nothing pending, everything raised and found has been returned exactly once |
| `Closing.EventInOnePlace` | internal/monitor/monitor.go:218-356 | every event that arrived raised one ingest alert, or is in its open window, or is in its window as taken by one later step: exactly one of the three |
| `Closing.TakenOnce` | internal/monitor/monitor.go:347-356 | over every interleaving, no two actions of any threads detach the same window, however often its key was listed, so none is reported twice |
| `Closing.TakenWhenDue` | internal/monitor/monitor.go:301-317 | over every interleaving, the start of a window a CloseDue thread detaches, plus size and grace, is at most the time that call was given |
| `Closing.ReturnsWhenServed` | internal/monitor/monitor.go:301-318 | over every interleaving, when a closing call returns, every window it listed is closed |
| `Closing.ListIsServed` | internal/monitor/monitor.go:301-356 | at any moment a thread's windows still to do are among those it listed, the others are closed, and a listed window that is open is still the one listed |
| `Closing.OpenOrClosed` | internal/monitor/monitor.go:354-355 | open and closed keys are disjoint after every step |
| `Closing.RenderedStable` | internal/monitor/monitor.go:356-396 | a detached window is reported the same whatever is interned between detaching and reporting |
| `Delivery.OrderFreeExactly` | internal/monitor/monitor.go:218-297 | where events of one key fall in one window, all orders of the same events report the same alert types, windows and actor sets if and only if the id space has room for every actor or for no new one |
| `Delivery.OrderDoesNotMatter` | internal/idmap/idmap.go:36-53 | with that room, two orders of the same events report the same, although ids are assigned differently |
| `Delivery.OrderMattersOtherwise` | internal/monitor/monitor.go:232-241 | without it, two orders are constructed whose reports differ in who exceeds the capacity |
| `Delivery.SharedKeyOrderMatters` | internal/monitor/monitor.go:193-205 | of two changes whose windows share a key, delivery order decides which window is reported, so the agreement of starts is needed |
| `Delivery.FittingStartsAgree` | internal/monitor/monitor.go:194-195 | window starts that an int64 holds always agree |
| `Monitors.Monitor.ObserveChange` | internal/monitor/monitor.go:218-246 | the state in place after a change event is that of the engine on values, and for the one window start with `start <= ts < start + size` on the grid of year 1: late if that start's int64 form is closed, else the actor is known, that window is open and holds the event under the actor's id, or the capacity alert says it cannot; windows, sums, lines and alerts spelled out |
| `Monitors.Monitor.ObserveCause` | internal/monitor/monitor.go:249-297 | the same for a cause; a producer missing from a non-empty allow-list, or mapped to false, leaves ids, windows and closed keys alone and raises exactly one `untrusted_producer` for the actor, and no other event raises one |
| `Meaning.ObserveMeans` | internal/monitor/monitor.go:186-297 | the engine's step on any event, spelled out field by field against the window that contains the event's time |
| `Meaning.OutsiderMeans` | internal/monitor/monitor.go:253-264 | who may justify a change: everyone if the allow-list is empty, else exactly the producers it maps to true |
| `Monitors.Monitor.WindowFor` | internal/monitor/monitor.go:193-205 | null exactly for a reported window; otherwise the one window of the event, which shares no cell with another |
| `Monitors.Monitor.Enter` | internal/monitor/monitor.go:232-246 | an event put into one window's vectors and maps changes no other window |
| `Monitors.Window.PutChange` | internal/monitor/monitor.go:232-246 | accepted exactly below the capacity; then set, sum and evidence are those of absorbing it, otherwise nothing changes |
| `Monitors.Window.PutCause` | internal/monitor/monitor.go:277-297 | the same for a cause with its derived and root sets |
| `Monitors.Monitor.Report` | internal/monitor/monitor.go:358-396 | vector differences, emptiness checks, listings and evidence loops produce the rendering of the window's value |
| `Meaning.RenderMeans` | internal/monitor/monitor.go:358-419 | one alert each, in this order and none for nobody, for changed without justified, justified without changed, derived without rooted, and, if checked, ids whose two sums differ; each with the window's start and end, the names in id order, exactly the numbered evidence lines of those ids and, for the last, both their sums |
| `Monitors.Monitor.AlertFromIds` | internal/monitor/monitor.go:402-419 | the alert of a listing of ids: their names and every evidence line under its actor and number |
| `Monitors.Monitor.AmountFinding` | internal/monitor/monitor.go:377-393 | the amount finding, or the panic of writing sums into the nil map |
| `Monitors.Monitor.CloseWindow` | internal/monitor/monitor.go:347-396 | the window leaves the open ones for good and what is returned is its rendering |
| `Monitors.Monitor.DetachWindow` | internal/monitor/monitor.go:348-356 | the window leaves the open ones, keeps its contents, and shares no cell with any open window |
| `Monitors.Monitor.CloseDue` | internal/monitor/monitor.go:301-319 | state and result are those of closing the due windows in ascending order; an open window is closed for good if and only if its start plus the window size plus the grace is at most the given time, and otherwise stays as it was; ids stay, nothing is pending |
| `Meaning.CloseDueMeans` | internal/monitor/monitor.go:301-318 | the same of the engine on values |
| `Monitors.Monitor.CloseAll` | internal/monitor/monitor.go:322-337 | the same for every open window: none stays open, all are closed |
| `Monitors.Monitor.DrainPending` | internal/monitor/monitor.go:339-345 | returns what is pending and empties it |
| `Engine.DefaultsFillGaps` | internal/monitor/monitor.go:79-92 | the defaults change exactly the configurations with a gap and leave none with one; each gap gets its default of one minute, zero, 2^20 or three, all else is kept; a negative evidence bound passes |
| `Times.ZeroTimeIsYearOne` | internal/monitor/monitor.go:186-188 | windows are counted from the first instant of year 1, in days from 1970 |
| `Times.OneWindow` | internal/monitor/monitor.go:186-188 | the window start is the one multiple of the size whose window holds the instant |
| `Times.KeyIsStart` | internal/monitor/monitor.go:194-195 | the map key is the window start exactly when an int64 holds it |
| `Words.ClearLowestBit` | internal/bitset/bitset.go:96-96 | `w & (w - 1)` removes the lowest set bit and no other |
| `Words.ZeroWord` | internal/bitset/bitset.go:71-79 | a word is zero exactly when none of its bits is set |
| `BitSets.BitSet.constructor` | internal/bitset/bitset.go:31-37 | a new vector covers its capacity and holds nothing |
| `BitSets.BitSet.Add` | internal/bitset/bitset.go:46-52 | succeeds exactly below the capacity and adds exactly that id |
| `BitSets.BitSet.Has` | internal/bitset/bitset.go:55-60 | membership |
| `BitSets.BitSet.Count` | internal/bitset/bitset.go:63-69 | the sum of the word counts is the cardinality of the set |
| `BitSets.BitSet.IsEmpty` | internal/bitset/bitset.go:72-79 | true exactly for the empty set |
| `BitSets.BitSet.Ids` | internal/bitset/bitset.go:90-100 | lists every member once, strictly ascending |
| `BitSets.BitSet.Union` | internal/bitset/bitset.go:103-108 | adds the operand's members the vector has words for, and stays valid exactly when those are below the capacity |
| `BitSets.BitSet.Intersect` | internal/bitset/bitset.go:111-119 | intersection, for operands of any capacities |
| `BitSets.BitSet.Subtract` | internal/bitset/bitset.go:128-133 | difference, for operands of any capacities: a shorter subtrahend erases nothing |
| `BitSets.Difference` | internal/bitset/bitset.go:136-140 | a fresh vector with the difference; neither operand changes |
| `BitSets.BitSet.ToBytes` | internal/bitset/bitset.go:146-152 | a bitmap of the capacity's length whose bits, in Redis order, are the members |
| `Bitmaps.MaskIsShift` | internal/bitset/bitset.go:149-149 | bit `r` of a byte is `1 << (7 - r)`, the Redis order |
| `BitSets.FromBytes` | internal/bitset/bitset.go:155-165 | the members are the set bits below the capacity, bit numbers taken as uint32 |
| `BitSets.ReadsExactly` | internal/bitset/bitset.go:155-165 | up to 512 MiB no bit number wraps |
| `BitSets.ThroughBytes` | internal/bitset/bitset.go:146-165 | writing and reading back keeps the members and the capacity |
| `BitSets.ThroughSet` | internal/bitset/bitset.go:146-165 | reading and writing back gives the same bytes exactly when the length is the capacity's and no bit is set beyond it |
| `RedisBits.Store.Pin` | internal/redisbits/redisbits.go:72-85 | fails exactly for capacity 0; otherwise the bitmap reaches the capacity's length and the member `capacity - 1` is removed; no other set, no other second, no other prefix changes |
| `RedisBits.Store.Add` | internal/redisbits/redisbits.go:72-97 | succeeds exactly below the capacity and adds that member; starts in one second name one set, and no other set, second or prefix changes |
| `RedisBits.Store.Count` | internal/redisbits/redisbits.go:107-109 | the bit count is the number of members |
| `RedisBits.Store.Load` | internal/redisbits/redisbits.go:155-164 | the members below the capacity, none for a missing key |
| `RedisBits.Store.BitDifference` | internal/redisbits/redisbits.go:123-151 | NOT, AND, count and read give, ascending, exactly the members of the difference whose byte the subtrahend has; every set keeps its bitmap |
| `RedisBits.Store.Difference` | internal/redisbits/redisbits.go:114-151 | pinned: exactly the difference without `capacity - 1`; unpinned: exactly its members below the subtrahend's byte length; both pinned sets lose `capacity - 1`, no other set changes |
| `RedisBits.DifferenceOfAdded` | internal/redisbits/redisbits.go:88-151 | from an empty server, additions to two sets of different names and then the pinned difference list, ascending, exactly the ids below `capacity - 1` added to the one and not to the other |
| `RedisBits.AddAll` | internal/redisbits/redisbits.go:88-97 | any number of additions put exactly the ids below the capacity into one set of one window and leave all others |
| `RedisBits.PinnedIsExact` | internal/redisbits/redisbits.go:76-85 | the pinned answer is the difference exactly when `capacity - 1` is not in it |
| `RedisBits.UnpinnedIsExact` | internal/redisbits/redisbits.go:38-51 | the unpinned answer is the difference exactly when the subtrahend's bytes reach every member of it |
| `RedisBits.BytesAreTheRedisBitmap` | internal/bitset/bitset.go:142-152 | a vector's bytes equal, byte for byte, the Redis bitmap of the same additions after an initial pin |
| `Bitmaps.WithBitMeaning` | internal/redisbits/redisbits.go:79-97 | SETBIT grows the string with zeros and changes one bit |
| `Bitmaps.InvertedMeaning` | internal/redisbits/redisbits.go:41-41 | BITOP NOT keeps the length and complements the bits inside it |
| `Bitmaps.BothMeaning` | internal/redisbits/redisbits.go:42-42 | BITOP AND zero-pads the shorter operand: intersection |
| `IdMaps.IdMap.Intern` | internal/idmap/idmap.go:36-53 | a known key keeps its id, a new one gets the next; the two directions stay inverse exactly while an id is left |
| `IdMaps.IdMap.Names` | internal/idmap/idmap.go:76-86 | one name an id, in order, the key at that place or the explicit unmapped rendering |
| `IdMaps.IdMap.Lookup` | internal/idmap/idmap.go:56-61 | the id of a known key, its first and only place; nothing for an unknown one |
| `IdMaps.AppendKeepsBijection` | internal/idmap/idmap.go:47-52 | appending a new key keeps the map a bijection if and only if fewer than 2^32 ids are taken |
| `InternThreads.EveryInterleaving` | internal/idmap/idmap.go:36-53 | over every interleaving of read checks and write sections within 2^32 ids, the two directions stay inverse, the assignment only grows, and everything returned stays true |
| `InternThreads.SameKeySameId` | internal/idmap/idmap.go:36-53 | two calls by any threads return the same id exactly when given the same key |
| `InternThreads.CallAlone` | internal/idmap/idmap.go:36-53 | the two steps of a call with no other in between leave and return what the class method does |
| `IdMaps.TextInjective` | internal/idmap/idmap.go:99-107 | the checksummed text determines a list of NUL-free keys |
| `IdMaps.TextAppends` | internal/idmap/idmap.go:103-105 | one more key adds exactly its number, NUL, the key and NUL at the end of the checksummed text |
| `IdMaps.ChecksumsAgree` | internal/idmap/idmap.go:96-107 | NUL-free replicas agree exactly when their checksums do, unless the digest collides on their texts |
| `IdMaps.LastTwoMerge` | internal/idmap/idmap.go:103-105 | any list of two or more keys has the text of the list with its last two written as one |
| `IdMaps.NulInKeyDefeatsChecksum` | internal/idmap/idmap.go:96-107 | every assignment of two or more keys shares its text, hence its checksum, with an assignment of one key that holds NUL |
| `IdMaps.TextUnsharedExactly` | internal/idmap/idmap.go:96-107 | the text tells an assignment from every other if and only if it is empty or one key not of the form key NUL 1 NUL key |
| `IdMaps.IdMap.Checksum` | internal/idmap/idmap.go:99-107 | the loop digests exactly the text of the assignment |
| `IdMaps.Load` | internal/idmap/idmap.go:126-145 | loads exactly the snapshots with distinct keys and their own checksum, to the same assignment |
| `IdMaps.ThroughSnapshot` | internal/idmap/idmap.go:109-145 | an undisturbed snapshot loads to the same ids in both directions |
| `IdMaps.DisturbedSnapshotRefused` | internal/idmap/idmap.go:115-124 | keys copied before an intern and checksummed after it are refused, unless the digest collides |
| `Encoding.DecimalReadsBack` | internal/report/report.go:46-46 | a numeral of decimal digits without leading zeros that reads back to its number |
| `Encoding.FieldUnique` | internal/idmap/idmap.go:104-104 | a NUL-free field is found again at the front of any text |
| `Sorting.StringLessMeans` | internal/checkpoint/checkpoint.go:148-148 | names are ordered by their first difference, a name before its continuations |
| `Ints.WrapMeans` | internal/checkpoint/checkpoint.go:135-142 | int64 and uint32 results differ from the exact ones by a multiple of the width |
| `Reports.PreimageInjective` | internal/report/report.go:44-51 | the hashed text determines number, time, payload and predecessor, whatever the payload holds |
| `Reports.PreimageIs` | internal/report/report.go:44-51 | the hashed text is number, time, payload and predecessor in this order, NUL between them |
| `Reports.HeadDeterminesReport` | internal/report/report.go:100-167 | two chains with the same head are the same, in length and entries, unless the digest collides on their texts or yields the genesis value |
| `Reports.PrefixOfChain` | internal/report/report.go:123-167 | every prefix of an accepted report is accepted |
| `Reports.AlteredEntryIsCaught` | internal/report/report.go:123-167 | an altered entry with its successor unaltered is never accepted past that successor |
| `Reports.Writer.Append` | internal/report/report.go:67-98 | on success exactly one entry, chained to the last, is acknowledged and its line written; on a marshalling error nothing changes; a write error leaves what reached the file, acknowledges nothing and makes every later append fail |
| `Reports.Writer.Head` | internal/report/report.go:102-106 | the hash of the last entry written, or the genesis value |
| `Reports.Verify` | internal/report/report.go:123-167 | returns the longest prefix of the entries that chains from genesis, its head, and the first fault: of the first entry not accepted the number is looked at first, then the link, then the content; with every entry accepted, the first line too long or malformed; no fault exactly when everything was read and accepted |
| `Reports.BlankIsSkipped` | internal/report/report.go:133-136 | a blank line changes neither the entries read nor how reading ends |
| `Reports.WrittenReportVerifies` | internal/report/report.go:61-167 | without a write error, what a writer wrote verifies without fault to exactly its entries and head if and only if every line is within 16 MiB; otherwise to exactly the entries before the first longer line, with a read error; after a write error nothing acknowledged is lost |
| `Reports.LongPayloadIsRefused` | internal/report/report.go:67-167 | a payload of 16 MiB is written and acknowledged, and the report is refused |
| `Reports.EncodedReads` | internal/report/report.go:130-165 | reading rendered entries gives them with marshalled payloads, up to the first line that is too long |
| `Reports.EncodeKeepsEntries` | internal/report/report.go:179-190 | entries rendered back are read as the same entries if and only if every line fits and marshalling changes no payload |
| `Reports.RenderedBackChains` | internal/report/report.go:176-190 | an accepted report rendered back is accepted only if marshalling changes no payload, unless the digest is broken |
| `Ledger.CommitsExactlyWhen` | internal/checkpoint/checkpoint.go:133-158 | a settlement commits if and only if every amount is positive and every party is free of a ban and left, in int64, with a non-negative balance |
| `Ledger.NetWrapsGain` | internal/checkpoint/checkpoint.go:135-142 | the net of an actor is its exact gain modulo 2^64, and the netted actors are the parties |
| `Ledger.BlamedIsParty` | internal/checkpoint/checkpoint.go:140-156 | a rejection is charged to a party of the settlement |
| `Ledger.PayerIsBlamed` | internal/checkpoint/checkpoint.go:136-142 | an amount that is not positive is charged to the payer of the first such leg |
| `Ledger.LeastAtFaultIsBlamed` | internal/checkpoint/checkpoint.go:148-158 | with positive amounts, a rejection is charged to the least party in name order that is banned or left negative in int64, with the ban as reason whenever it is banned |
| `Ledger.MovePays` | internal/checkpoint/checkpoint.go:32-36 | a leg takes its amount from the payer, gives it to the payee, and touches nobody else |
| `Ledger.CommitIsLegByLeg` | internal/checkpoint/checkpoint.go:160-166 | a commit leaves the balances of moving the legs one at a time in any order, if and only if all those balances fit an int64 |
| `Ledger.CommitConserves` | internal/checkpoint/checkpoint.go:160-166 | a commit conserves the total over all accounts: exactly when nothing wraps, modulo 2^64 always |
| `Ledger.BoundedNeverWraps` | internal/checkpoint/checkpoint.go:135-165 | with balances and the sum of the amounts inside int64, no intermediate net and no final balance wraps, the decision is that of unbounded integers, and a commit leaves every party its exact balance, not negative |
| `Ledger.RepresentableDecision` | internal/checkpoint/checkpoint.go:133-158 | where every final balance fits an int64, a settlement commits if and only if amounts are positive, nobody is banned and leg-by-leg transfer leaves nobody negative |
| `Ledger.CommitLeavesNobodyNegative` | internal/checkpoint/checkpoint.go:155-165 | a committed settlement leaves nobody negative by the exact count if and only if no party's exact balance is below the int64 range |
| `Ledger.RefusedThoughSound` | internal/checkpoint/checkpoint.go:155-157 | what unbounded integers accept is refused if and only if some party's exact balance is past the int64 range and wraps to a negative |
| `Ledger.UnboundedDecisionDiffers` | internal/checkpoint/checkpoint.go:135-158 | outside that bound a settlement can be accepted that leaves a party negative |
| `Ledger.DecisionIgnoresOrder` | internal/checkpoint/checkpoint.go:135-158 | the decision to commit does not depend on the order of the legs |
| `Ledger.VerdictIgnoresOrder` | internal/checkpoint/checkpoint.go:135-158 | with positive amounts neither do the actor and the reason blamed |
| `Ledger.RunnableCommits` | internal/checkpoint/checkpoint.go:133-158 | if some order of the legs runs with no balance ever negative and no party is banned, the settlement commits, exactly unless int64 makes a final balance negative |
| `Checkpoint.Book.Settle` | internal/checkpoint/checkpoint.go:129-167 | returns the verdict; on a commit every observable account is the applied one and the history is untouched; on a rejection every observable account is unchanged, the actor and reason are the payer of the first amount that is not positive or else the least party at fault, and one failure is charged to that actor in the window that contains the settlement's time, or the clock's if it has none; gating is monotone |
| `Checkpoint.Book.Fail` | internal/checkpoint/checkpoint.go:170-208 | records the failure under its window and actor and keeps the gate in step with the history |
| `Checkpoint.RejectionMeans` | internal/checkpoint/checkpoint.go:170-206 | a rejection adds one failure to one actor in one window, leaves every other actor's flag, and flags the actor with that window, count and counterparties exactly from the threshold on |
| `Checkpoint.FlagKeepsGate` | internal/checkpoint/checkpoint.go:177-206 | one more failure keeps: an actor is gated if and only if some window holds at least the threshold of its failures, and its alert carries the current count of its own window |
| `Checkpoint.RecordAddsOne` | internal/checkpoint/checkpoint.go:177-181 | a failure is appended to one actor's list in one window and nowhere else |
| `Checkpoint.Book.NetLegs` | internal/checkpoint/checkpoint.go:135-142 | the loop nets the legs, stopping at the first amount that is not positive |
| `Checkpoint.Book.CheckParties` | internal/checkpoint/checkpoint.go:150-158 | finds the first party with a problem, in name order; no observable account changes |
| `Checkpoint.Book.Apply` | internal/checkpoint/checkpoint.go:163-165 | each party's net is added once, other accounts stay |
| `Checkpoint.Book.Counterparties` | internal/checkpoint/checkpoint.go:184-197 | sorted, exactly the parties of the legs other than the actor |
| `Checkpoint.Book.Credit` | internal/checkpoint/checkpoint.go:96-100 | one balance grows, in int64, no other account changes |
| `Checkpoint.Book.Ban` | internal/checkpoint/checkpoint.go:103-107 | one account is banned, no other account changes |
| `Checkpoint.Book.WithdrawalAllowed` | internal/checkpoint/checkpoint.go:243-251 | refused exactly for actors with a burst in some window, with the current count of such a window |
| `Checkpoint.Book.RiskAlerts` | internal/checkpoint/checkpoint.go:230-239 | the alerts of the flagged actors, each once, sorted by actor |

## Left out

- Runs.Play: asks that the keys known and the operations together be at most 2^32, because ids are uint32 and the map stops being a bijection past 2^32 keys (`IdMaps.AppendKeepsBijection`); so does `Interleavings.Interleave`.
- Delivery.OrderFreeExactly: asks that events of one key fall in one window, which fails only for windows 2^64 nanoseconds apart and is needed (`Delivery.SharedKeyOrderMatters`), and that the configuration never panics.
- Closing.EveryInterleavingAccounted: asks that the configuration never panics, because a panic ends the process.
- IdMaps.TextUnsharedExactly: compares with every list of keys, also one that repeats a key and so could not be loaded; the twin of two or more keys is always loadable.
- Reports.HeadDeterminesReport: the digest is a parameter, so it holds up to the stated collision; the time printer is taken to be injective and free of NUL, and so is the hex form free of NUL.
- Reports.EncodeKeepsEntries: marshalling of payloads is a parameter, an idempotent text function; the JSON of the other fields is taken to read back as written.
- Evidence text: evidence keys and lines are kept as structured values, so their wording, and two keys that print alike, are not modelled.
- `Failures()` and its order among equal times, which the sort does not fix.
- The account pointers of the book are values in a map; nothing outside the book holds one.
- The `closed` map of the monitor is a set of keys, since only `true` is ever stored.
- Marshalling: a value comes with a JSON text or without; timestamps that JSON refuses and invalid UTF-8 in stored keys are not modelled.
- Redis network errors, time-to-live, `DropWindow`, and two store keys that print alike.
- The storage of reports in Postgres, the event subscriptions, the command-line programs and the benchmarks.
- Report continuity across restarts: a writer always starts a new chain.
