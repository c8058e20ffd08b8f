# Samaritan in Dafny

Samaritan is a client-side layer-7 proxy, most of it a proxy for Redis clusters. This project models
its stateful core and proves what that core is relied on for. Each part is written in the form of the
code it follows: classes with fields and in-place updates for the hot-key counter, the buffered
readers, the decoder and encoder, the configuration store, the host set and the compression pass;
step machines for what runs concurrently; functions where the code only computes.

| files | what they model |
|---|---|
| `LfuSpec`, `LfuRuns`, `Lfu` | the hot-key counter: a linked list of frequency nodes holding linked lists of items, the plain value it stands for, and what its reports mean over any run |
| `HotKeys`, `HotKeyCollector`, `HotKeyPeriod`, `HotKeySeries` | logarithmic counters, the sorted top list, collection and decay, a whole period from the clients' counters to the list, and series of calls |
| `Bytes`, `Matcher` | byte streams in chunks, and the health check's search for a payload in one |
| `RespText`, `Resp`, `RespFormat`, `RespRoundTrip`, `RespReader`, `RespDecoder`, `RespEncoder`, `RespWire` | the Redis protocol: its grammar in bytes, a pure parser, round trips, and the buffered reader, decoder and encoder that refine it |
| `Pipeline`, `PipelineSafety`, `PipelineRuns`, `PipelineRedirects` | the clients of an upstream: pipelining, redirections, shutdown and drain, over all interleavings, and where redirected requests go |
| `PipelineLost`, `PipelineLostForever`, `PipelineReach`, `PipelineFree`, `PipelineFate`, `PipelineStalls` | which requests can still be answered: what is lost, that it stays lost, how everything else gets its answer, and runs that lose requests |
| `Gather`, `Session` | commands split over many nodes, and the order of replies to one caller |
| `KeySlot`, `Scan` | the slot of a key, and SCAN over all nodes behind one cursor |
| `Slices`, `Compress`, `CompressPasses`, `DecodedArgs` | slices carved from one block, values compressed where they stand, once or in several passes, and both together for a decoded request |
| `Endpoints`, `ConfigReplay`, `ConfigAgreement`, `ConfigHistory` | the configuration store, the events it emits, the controller that replays them, and both read off the list of updates alone |
| `Discovery` | subscriptions sent to the discovery server |
| `HostSet`, `HostRuns`, `HostMarks` | hosts, health marks in one step and in two, and the sorted list of healthy hosts |
| `Basics` | what several modules share |

## Where a promise fails

Some promises do not hold of the code as it stands. For each there is a concrete case, and the exact
condition under which the promise does hold.

- A controller that replays every event runs the processors that the updates demand as long as every
  update is fair, and no longer (`ConfigHistory.RunAgrees`, `ConfigHistory.UnfairDisagrees`,
  `ConfigAgreement.UpdateAgreesIffFair`). An update that moves an address, removes endpoints of a
  configured service that has none yet, takes the configuration away, or brings one the processor
  refuses leaves the two apart (`ConfigAgreement.UnfairExamples`).
- Not every request is answered. From every reachable state a request can still be answered if and
  only if it is not lost (`PipelineFate.FateExactly`), and these are the lost ones:
  - a request that a quitting writer dropped;
  - one enqueued after the drain, by a caller that passed the quit check before it
    (`PipelineRuns.StrandingRun`);
  - one waiting at a client whose reader has a reply in hand and no request to match it with, while the
    writer is gone or bound to fail at a closed connection before it supplies one
    (`PipelineStalls.JammingRun`);
  - one that the writer has flushed, or will encode without writing and not flush, while the queue of
    awaited replies is full and its reader gone (`PipelineStalls.LateHeldRun`);
  - one that depends on a reader of a closed set: readers that each wait to pass a redirected request on
    to a full queue which only readers of the same set, or nobody, could get emptied. A full client
    redirected to itself is such a set, with nothing failed and nothing told to quit
    (`PipelineStalls.SelfRedirectRun`); so is a reader that waits at a full, jammed client
    (`PipelineStalls.StalledByJam`).
- A caller of the discovery client can wait for ever with the lock held. This happens exactly when a
  call takes effect on a full channel of 16 while there is no stream, or the stream is lost while a
  caller waits at a full channel (`Discovery.StuckExactly`); both can be reached
  (`Discovery.StuckReachable`), and in every other state the lock can still be released
  (`Discovery.LockReleasedIff`).
- A batch forgets the order of a subscription and a cancellation of the same service. With everything
  sent, a server that keeps a set has the subscribed services if and only if no service whose last
  message names it on both sides is left the other way round by the order in which the server works
  (`Discovery.FlushedServerAgrees`); for either order there is a run on which it is
  (`Discovery.DisagreeingRun`).
- A value sent uncompressed that begins with a decodable header is read back as something else
  (`Compress.ArgRoundTrip` gives the exact guards, `Compress.MistakenExists` the values).
- A redirected request goes through the filters again with its body already compressed. A value that
  two passes shorten is not what one reading gives (`CompressPasses.RedirectedWriteMisread`). Read once,
  a value is what was written exactly when it was sent raw and does not look compressed, or only the
  first pass shortened it (`CompressPasses.ReadOnceExactly`); `CompressPasses.ReadBackExactly` says it
  for any number of passes and readings.
- With 2^15 nodes or more no SCAN iteration both ends and visits every node (`Scan.TooManyNodes`). With
  fewer, the client follows the walk over the nodes exactly as long as nodes answer with cursors that
  fit 48 bits (`Scan.SaneExactly`, `Scan.CursorRoundTrip`).
- A host that returns under another type leaves a listed address that is no member
  (`HostRuns.KindChangeLeavesStranger`); the maps stay right exactly when the type is the listed one.
  A host added while its own flag says unhealthy is listed all the same (`HostRuns.AddTellsIff`).
- Two marks of one host can overtake each other between the swap of the flag and the lock, and leave a
  host listed whose flag says unhealthy (`HostMarks.OvertakenMark`). The set knows hosts by address, so
  a mark of a host object that was replaced changes the listing of the new one: the new host can end up
  unlisted although its flag says healthy, and marking it healthy changes nothing
  (`HostRuns.ReplacedObjectUnlisted`, `HostMarks.ReplacedWhileMarked`). With no mark on its way, lists
  and flags agree exactly when no member was last told wrong: by a mark that, when it landed, differed
  from the flag of the member of that time, or by being added with its flag down
  (`HostMarks.QuietExactly`; `HostRuns.HealthyByFlags` for marks made in one step).
- A clock that moves on during one collection lets the next decay break the order of the hot keys
  (`HotKeys.UnevenTimesDisorder`). Decay keeps the order exactly when every key that is halved and not
  dropped stays above every later key that is not halved (`HotKeys.DecayOrderIff`).

Two comments differ from the code, and the model follows the code. The remark on the scan cursor
gives 2^47-1 as the largest 48-bit number; the code keeps all 48 bits. The diagram of the compression
header shows a line end; reading does not look at those two bytes.

## Model

| member | source | states |
|---|---|---|
| LfuSpec.IncrWf | proc/redis/hotkey/counter.go:45-64 | one increment of the plain counter keeps it well formed: distinct keys, positive counts, never more keys than the capacity |
| LfuSpec.VictimFirst | proc/redis/hotkey/counter.go:125-137 | the victim is the first key, in order of arrival, among those of least count |
| LfuRuns.RunIsPeriod | proc/redis/hotkey/counter.go:66-81 | the state after any run depends only on the increments since the last Latch |
| LfuRuns.LatchReport | proc/redis/hotkey/counter.go:66-81 | a report has at most capacity keys and never exceeds a key's true total; it equals the total if and only if the key was never evicted in the period |
| LfuRuns.PeriodCount | proc/redis/hotkey/counter.go:45-64 | the same for every prefix of a period, with the converse: a key once evicted is reported too low |
| LfuRuns.OrderIsReached | proc/redis/hotkey/counter.go:83-107 | the stored order is the order in which keys reached their present counts |
| LfuRuns.EvictionIsColdest | proc/redis/hotkey/counter.go:125-137 | a key is evicted only by a new key meeting a full counter, is the only one, has least count, and of those reached it earliest |
| LfuRuns.FullCounterEvicts | proc/redis/hotkey/counter.go:56-59 | the converse: a full counter meeting a new key does evict one |
| Lfu.Counter.constructor | proc/redis/hotkey/counter.go:36-42 | a new counter of any capacity is well formed and stands for the empty value |
| Lfu.Counter.Incr | proc/redis/hotkey/counter.go:45-64 | on the heap, one increment keeps every link, list and map entry consistent and changes the value it stands for exactly as the plain increment does |
| Lfu.Counter.Latch | proc/redis/hotkey/counter.go:66-81 | returns the counts of the value it stands for and leaves an empty, well-formed counter |
| Lfu.Counter.Report | proc/redis/hotkey/counter.go:66-76 | walking the items yields the recorded counts, key by key |
| Lfu.Increment | proc/redis/hotkey/counter.go:83-107 | moves one item to the next frequency, making or removing nodes as needed, and keeps the list of nodes linked and strictly increasing |
| Lfu.IncrementedRepresents | proc/redis/hotkey/counter.go:83-107 | the chain after such a move stands for the value with that key's count raised and the key last in order |
| Lfu.Add | proc/redis/hotkey/counter.go:109-123 | puts a new item at frequency one, at the end of the first node or in a new first node |
| Lfu.AddedRepresents | proc/redis/hotkey/counter.go:109-123 | the chain after an addition stands for the value with the key recorded once |
| Lfu.EvictFirst | proc/redis/hotkey/counter.go:125-137 | takes the first item of the first node out and drops the node if it is left empty |
| Lfu.EvictedRepresents | proc/redis/hotkey/counter.go:125-137 | the chain after an eviction stands for the value without its victim |
| Lfu.FreqNode.PopItem | proc/redis/hotkey/counter.go:156-173 | the first item leaves the list and the rest stays linked; an empty list gives nothing |
| Lfu.FreqNode.AppendItem | proc/redis/hotkey/counter.go:175-188 | the item becomes the last of the list, with all links set |
| Lfu.FreqNode.InsertBeforeMe | proc/redis/hotkey/counter.go:190-197 | links a node in front of this one and touches only the neighbour |
| Lfu.FreqNode.InsertAfterMe | proc/redis/hotkey/counter.go:199-206 | links a node behind this one and touches only the neighbour |
| Lfu.FreqNode.Free | proc/redis/hotkey/counter.go:208-219 | unlinks the node from its neighbours |
| Lfu.ItemNode.Free | proc/redis/hotkey/counter.go:226-246 | takes the item out of its list, wherever in the list it stands |
| HotKeys.LogCounter.RepeatIncr | proc/redis/hotkey/collector.go:51-68 | the loop with its early stop gives the value of applying every random draw, and stamps the time |
| HotKeys.LogCounter.Halve | proc/redis/hotkey/collector.go:71-78 | halves the value and stamps the time, unless it is zero |
| HotKeys.RaiseExactly | proc/redis/hotkey/collector.go:57-66 | a hit raises a counter below 255 exactly when the draw times ten times the value plus one is below one |
| HotKeys.RaiseBounds | proc/redis/hotkey/collector.go:57-66 | a raised counter never falls, gains at most one per hit, and is non-zero after the first hit, whatever is drawn |
| HotKeyCollector.SortedHotKeys.Search | proc/redis/hotkey/collector.go:105-107 | finds the first place whose counter is not above the given one |
| HotKeyCollector.SortedHotKeys.Insert | proc/redis/hotkey/collector.go:103-119 | the list shows exactly the entry put in its place with the overflow cut off; success tells whether it got in |
| HotKeys.InsertsTop | proc/redis/hotkey/collector.go:103-119 | any series of insertions leaves the list descending, of the size of the capacity or of the series, and nothing left out beats anything kept |
| HotKeys.SumOfIs | proc/redis/hotkey/collector.go:226-233 | what reports say of a key adds up over any two lists of them |
| HotKeyCollector.SumReports | proc/redis/hotkey/collector.go:226-237 | the period's hits per key are the sums of the clients' reports |
| HotKeyCollector.Collector.Collect | proc/redis/hotkey/collector.go:225-268 | cached counters are raised in place, each with the clock reading of its moment, new keys get new counters, and the cached list becomes the insertion of every candidate once, in some order; it is in descending order, and evenly timed if the clock stood still; no hits change nothing |
| HotKeyPeriod.LatchAll | proc/redis/hotkey/collector.go:226-234 | every client's counter reports its own counts and is left empty and well formed, whatever the others do |
| HotKeyPeriod.CollectPeriod | proc/redis/hotkey/collector.go:225-268 | one period on the heap: all client counters are emptied, and the cached list becomes the insertion of every key, cached or hit, raised by its hits summed over the clients, in descending order |
| HotKeySeries.CountSeries | proc/redis/hotkey/counter.go:45-81 | on the heap, any series of increments and latches leaves a well-formed counter that stands for the run of the plain one, and each latch reports what the plain one records there |
| HotKeySeries.CollectorSeries | proc/redis/hotkey/collector.go:225-291 | any series of collections and evictions keeps the cached keys a valid list, and an even one even, so descending, if the clock stands still during each |
| HotKeys.CollectionCached | proc/redis/hotkey/collector.go:247-267 | after a collection names are distinct, counters non-zero, values descending and the size within capacity; each key carries the time it was raised, all the same time if the clock stood still |
| HotKeyCollector.Collector.EvictStale | proc/redis/hotkey/collector.go:270-291 | idle counters are halved in place and keys at zero dropped; names stay distinct and counters non-zero, and an evenly timed list stays in order and evenly timed |
| HotKeys.DecayCached | proc/redis/hotkey/collector.go:270-291 | decay keeps names distinct and counters non-zero, and keeps the order of keys that share one update time |
| HotKeys.DecayExactly | proc/redis/hotkey/collector.go:270-291 | after a decay exactly these are listed: keys updated this minute as they were, and older ones with half their value where that is not zero |
| HotKeys.DecayOrderIff | proc/redis/hotkey/collector.go:270-291 | decay leaves a descending list in order if and only if no key that is halved, and not dropped, falls below a later key that is not halved |
| HotKeys.UnevenTimesDisorder | proc/redis/hotkey/collector.go:225-291 | a collection from an empty cache during which the minute passes, and the decay after it that leaves the keys out of order |
| Matcher.BufferedConn.ShiftBufferIfNeeded | proc/internal/hc/atcp/conn.go:111-119 | shifting keeps the buffered bytes and leaves room for a read whenever the buffer is not full of them |
| Matcher.BufferedConn.ReadMore | proc/internal/hc/atcp/conn.go:121-128 | one read keeps buffered plus unread bytes as they were, and makes progress or records an error if there is room |
| Matcher.BufferedConn.Buffer | proc/internal/hc/atcp/conn.go:62-68 | gives the buffered bytes and loses none of the stream |
| Matcher.BufferedConn.SkipBuffer | proc/internal/hc/atcp/conn.go:94-109 | drops exactly the first n buffered bytes, or reports that there are not so many |
| Matcher.EndsWithPartially | proc/internal/hc/atcp/config_actions.go:110-119 | finds where the longest unfinished match at the end begins, or that there is none |
| Matcher.LongestBorderIsSafe | proc/internal/hc/atcp/config_actions.go:121-147 | what lies before the longest unfinished match can be part of no match, however the stream goes on |
| Matcher.SearchPayload | proc/internal/hc/atcp/config_actions.go:121-147 | found exactly when the payload occurs, at its leftmost place; otherwise only bytes no continuation needs are skipped and fewer than the payload remain |
| Matcher.Perform | proc/internal/hc/atcp/config_actions.go:149-177 | over any chunking of a stream without errors, success exactly when the payload occurs in the unread stream, standing just past its leftmost occurrence; otherwise an unexpected response at the end of the stream; every read has room |
| RespText.ParseInt64 | proc/redis/codec.go:158-184 | the fast path and the library path together are the decimal parser for 64-bit integers, failures included |
| RespText.ParseOfDecimal | proc/redis/codec.go:158-184 | every 64-bit integer is read back from its decimal text |
| RespEncoder.ItoaTable.Itoa | proc/redis/codec.go:289-319 | the prepared table gives the decimal text of every integer it covers, the library that of the others |
| RespReader.Reader.Fill | proc/redis/bufio.go:79-97 | one fill keeps consumed, buffered and unread bytes equal to the stream, and makes progress or records an error |
| RespReader.Reader.Read | proc/redis/bufio.go:103-123 | gives a non-empty prefix of what is unread, or the end of the stream; after an error, that error again and nothing changes |
| RespReader.Reader.ReadByte | proc/redis/bufio.go:125-138 | consumes exactly the next byte; after an error, that error again and nothing changes |
| RespReader.Reader.PeekByte | proc/redis/bufio.go:140-152 | shows the next byte and consumes nothing; after an error, that error again and nothing changes |
| RespReader.Reader.ReadSlice | proc/redis/bufio.go:154-175 | a whole line if it fits the buffer, a full buffer if it does not, or nothing at the end; after an error, that error again and nothing changes |
| RespReader.Reader.ReadBytes | proc/redis/bufio.go:177-204 | exactly up to and including the first line end, for lines of any length and any chunking; after an error, that error again and nothing changes |
| RespReader.Reader.ReadFull | proc/redis/bufio.go:206-216 | exactly n bytes, or an error if fewer are left; after an error, that error again and nothing changes |
| RespDecoder.SplitWords | proc/redis/codec.go:117-142 | splitting at spaces gives exactly the non-empty words of the line |
| RespDecoder.Decoder.Decode | proc/redis/codec.go:71-80 | gives and leaves exactly what the pure parser gives and leaves on everything unread, up to the first failure, which it then repeats |
| RespDecoder.Decoder.DecodeValue | proc/redis/codec.go:82-115 | the same for one value of any type, at any depth of nesting |
| RespDecoder.Decoder.DecodeInline | proc/redis/codec.go:117-142 | a typed line is read as the array of its words |
| RespDecoder.Decoder.DecodeInt | proc/redis/codec.go:144-156 | an integer line within the buffer, or its error |
| RespDecoder.Decoder.DecodeBulkString | proc/redis/codec.go:186-207 | length, limits, content and line end are read and checked as the parser does |
| RespDecoder.Decoder.DecodeText | proc/redis/codec.go:209-219 | a text line without its line end |
| RespDecoder.Decoder.DecodeArray | proc/redis/codec.go:221-243 | an array of the stated number of values, null kept apart from empty |
| RespEncoder.Encoder.Encode | proc/redis/codec.go:255-264 | appends the encoding of the value, and nothing more after a failure |
| RespEncoder.Encoder.EncodeValue | proc/redis/codec.go:266-283 | appends the encoding of a value of any type |
| RespEncoder.Encoder.EncodeBulk | proc/redis/codec.go:340-348 | appends length and content, each with its line end |
| RespEncoder.Encoder.EncodeArray | proc/redis/codec.go:350-363 | appends the number of items and then every item in order |
| RespFormat.DecimalExactly | proc/redis/codec.go:309-319 | a number is written as its decimal digits, bytes 48 to 57, most significant first, without leading zeros, with 45 before a negative one, and in no other way |
| RespFormat.IntTextExactly | proc/redis/codec.go:158-184 | read as a number are exactly the texts of an optional 43 or 45 and digits whose value has 64 bits |
| RespFormat.EncodeExactly | proc/redis/codec.go:266-363 | the encoder writes for every value, at any depth, the one byte string of the protocol: type bytes 58, 43, 45, 36 and 42, length lines, line ends 13 and 10, null as -1 |
| RespFormat.ParseExactly | proc/redis/codec.go:82-243 | the parser reads a value and leaves a rest exactly when the stream begins with that value in the protocol, typed lines included, within buffer and length limits |
| RespFormat.WordsExactly | proc/redis/codec.go:117-142 | the words of a typed line are exactly the pieces between bytes 32 |
| RespFormat.NumberRefused | proc/redis/codec.go:144-156 | a length line with a wrong end or without a 64-bit number is refused with the error for it |
| RespFormat.NumberUnfinished | proc/redis/bufio.go:154-175 | a length line without an end is refused as too long for the buffer or as the end of the stream |
| RespFormat.TextRefused | proc/redis/codec.go:209-219 | so is a text line without an end, or with the wrong one |
| RespFormat.BulkRefused | proc/redis/codec.go:186-207 | a negative or too great length, a short stream and a wrong line end each give their error |
| RespFormat.ArrayRefused | proc/redis/codec.go:221-243 | so do wrong lengths of arrays, and otherwise the first item that is refused decides |
| RespFormat.BlankRefused | proc/redis/codec.go:137-140 | a typed line of nothing but spaces is refused |
| RespRoundTrip.RoundTripExactly | proc/redis/codec.go:82-363 | a value comes back from its encoding, whatever follows it, if and only if it is well formed |
| RespRoundTrip.RoundTripAll | proc/redis/codec.go:82-363 | any list of well-formed values comes back in order, the rest untouched |
| RespRoundTrip.PrefixFree | proc/redis/codec.go:266-363 | no encoding of a well-formed value starts another |
| RespRoundTrip.SmallerBufferFails | proc/redis/bufio.go:154-175 | 22 bytes is the least buffer: one byte less and a well-formed integer is refused |
| RespRoundTrip.InlineIsArray | proc/redis/codec.go:117-142 | a typed line means what the array of its words means |
| RespWire.Transfer | proc/redis/codec.go:61-363 | any list of well-formed values written by the encoder is read back unchanged by the decoder, for every chunking and every buffer from 22 bytes |
| PipelineSafety.StepKeepsOnePlace | proc/redis/upstream.go:585-709 | every step of any client keeps each issued request in one place only |
| PipelineSafety.HandleKeepsOnePlace | proc/redis/upstream.go:669-696 | so does matching a reply: answering, or taking the request, with the ASKING before it, in hand for a redirection |
| PipelineSafety.RelayKeepsOnePlace | proc/redis/upstream.go:321-344 | so does passing it on to the pending queue of another client, or of the same |
| Pipeline.SpillsExactly | proc/redis/upstream.go:632-635 | encoding a request writes to the connection exactly when what is buffered and the request exceed 4096 bytes |
| PipelineRedirects.RelayIsRedirection | proc/redis/upstream.go:321-336 | in every reachable state a reader with something to send on was last handed a MOVED or ASK reply naming the client it is for, with the last of the requests; before that one stands at most the ASKING of an ASK |
| PipelineRedirects.HandledReply | proc/redis/upstream.go:669-696 | a final reply answers its request; any other puts it in the reader's hand for the client it names, behind an ASKING exactly if it is an ASK |
| PipelineRedirects.QueuedWhereNamed | proc/redis/upstream.go:321-336 | in every run, what a reader puts into a pending queue goes to the client that the reply for it names, or is the ASKING of an ASK reply that names it; no other queue changes |
| PipelineRedirects.RedirectedGoesOn | proc/redis/upstream.go:321-336 | in every run, a redirected request is in the reader's hand for the named client, was put into its queue, or was answered as that client was closed or the upstream quit |
| PipelineRedirects.HandedAreDecoded | proc/redis/upstream.go:654-667 | in every run the k-th reply handed out at a client is the k-th that the run decodes there |
| PipelineRuns.QueueBounds | proc/redis/upstream.go:530-568 | no queue holds more than 1024 requests, and callers and writers wait only at a full one |
| PipelineRuns.StepKeepsSound | proc/redis/upstream.go:603-696 | every step keeps the requests in process equal to those encoded and not yet replied to, in order |
| PipelineRuns.NthReplyToNthRequest | proc/redis/upstream.go:612-696 | in every reachable state the k-th reply on a connection was handed to the k-th request encoded on it |
| PipelineRuns.ExactlyOnePlace | proc/redis/upstream.go:585-709 | every issued request is in exactly one place, once, and is answered at most once |
| PipelineRuns.DroppedOnlyOnQuit | proc/redis/upstream.go:612-652 | a request is dropped only by the writer of a client that has quit, one at most |
| PipelineRuns.NothingLostBeforeQuit | proc/redis/upstream.go:603-696 | while no client has quit, every request is answered, in a queue, or in the hands of a caller, writer or reader |
| PipelineRuns.DrainAnswersAll | proc/redis/upstream.go:698-709 | what is queued when reader and writer have stopped is answered by the end of the drain, in every run |
| PipelineRuns.StrandedForever | proc/redis/upstream.go:603-610 | a request enqueued after the drain stays queued in every run |
| PipelineRuns.StrandingRun | proc/redis/upstream.go:603-610 | a run that ends that way |
| PipelineLost.HereStep | proc/redis/upstream.go:603-709 | what is lost at a client stays lost through every step of the client itself |
| PipelineLostForever.ClosedStep | proc/redis/upstream.go:603-696 | readers that wait for room only they could make do so after every step |
| PipelineLostForever.LostForever | proc/redis/upstream.go:585-709 | a lost request is answered in no run from there on |
| PipelineFree.Free | proc/redis/upstream.go:321-336 | a reader outside every closed set can get rid of what it has to pass on, in a run that loses no request of its client |
| PipelineFree.AllStuckClosed | proc/redis/upstream.go:321-336 | the closed sets have a largest one |
| PipelineFate.OpenFate | proc/redis/upstream.go:585-709 | at a client that is neither drained nor jammed and whose reader can be freed, every request can be answered but one held too late or behind a clogging one |
| PipelineFate.ReachedFate | proc/redis/upstream.go:612-652 | with the reader stuck, a pending request can be answered if the room for awaited replies lasts until it and it is stopped, spills over the buffer or is flushed |
| PipelineFate.FateExactly | proc/redis/upstream.go:585-709 | in every reachable state a request can still be answered if and only if it is not lost |
| PipelineStalls.JammingRun | proc/redis/upstream.go:654-667 | a run after which the reader of a client that has quit waits for ever with a reply in hand, a request lost in the queue |
| PipelineStalls.LateHeldRun | proc/redis/upstream.go:640-645 | a run after which the writer holds a flushed request before a full queue without a reader: it is lost |
| PipelineStalls.SelfRedirectRun | proc/redis/upstream.go:321-336 | a run, with nothing failed or told to quit, after which reader and writer of a full client wait for each other for ever |
| PipelineStalls.StalledByJam | proc/redis/upstream.go:603-610 | whoever waits to enqueue at a full, jammed client is lost, with all that awaits replies behind it |
| Gather.SplittableExactly | proc/redis/request.go:154-226 | MSET takes one pair or more behind its name, the others one key or more |
| Gather.SplitMSet | proc/redis/request.go:166-191 | part i is "set" with key and value number i, and together the parts carry the arguments unchanged and in order |
| Gather.SplitPerKey | proc/redis/request.go:218-242 | part i is "get", or the command itself, with key number i, and together the parts carry the keys unchanged and in order |
| Gather.SumUp | proc/redis/request.go:313-331 | the sum of the integer replies, with 64-bit wrap-around, or an error naming how many replies were none |
| Gather.StepKeeps | proc/redis/request.go:129-138 | every step of any part keeps the account of unfinished parts and of answers |
| Gather.AllHooksIs | proc/redis/request.go:129-138 | each hook is given what the hook registered after it has left |
| Gather.IntSumIs | proc/redis/request.go:313-325 | the sum of a list is fixed by one integer counting as itself, anything else as nothing, and lists adding up |
| Gather.AnsweredOnceByTheLast | proc/redis/request.go:193-331 | however parts interleave, the command is answered once, when the last part has reported: MSET with OK, MGET with the reply that the run set for key i, as its hooks left it, at place i, and the others with the 64-bit sum of the replies, or with an error naming how many were no integers |
| Gather.CanBeAnswered | proc/redis/request.go:129-138 | from any point of any run the parts can go on until the command is answered |
| Session.StepKeeps | proc/redis/session.go:75-125 | every step of reader, writer and completions keeps requests in line in order of arrival |
| Session.RepliesInArrivalOrder | proc/redis/session.go:75-125 | in every run the bytes written are the encodings of v_0, v_1 and so on, one for each answer the run encodes, where v_k is what a step of the run completed the k-th arrival with, the only one to do so |
| Session.NextCanBeWritten | proc/redis/session.go:96-125 | while reader and writer are there, three steps are enough to write the answer of the oldest unanswered request once it is completed |
| Session.QueueBound | proc/redis/session.go:75-94 | at most 32 requests are queued, and the reader waits only at a full queue |
| KeySlot.TableIsShift | proc/redis/util.go:22-54 | each of the 256 table entries is its index pushed through the shift register |
| KeySlot.Crc16 | proc/redis/util.go:56-62 | the table-driven checksum of any bytes is the remainder of their polynomial division by 0x11021 after 16 zero bits |
| KeySlot.HashTag | proc/redis/util.go:64-87 | gives the bytes between the first opening brace and the first closing brace after it, if any lie there, else the key |
| KeySlot.SlotOf | proc/redis/upstream.go:137-139 | the slot is below 16384 and is the checksum of the hashed part of the key |
| KeySlot.HashedUnique | proc/redis/util.go:64-87 | the hashed part of a key is determined by the key |
| KeySlot.SameTagSameSlot | proc/redis/util.go:64-87 | keys with the same tag have that tag hashed, whatever stands around it |
| Scan.CursorRoundTrip | proc/redis/request.go:391-402 | unpacking gives back node and cursor if and only if the node's cursor fits 48 bits |
| Scan.ClientWalks | proc/redis/handler.go:240-260 | with fewer than 2^15 hosts, and nodes whose pages carry cursors that fit 48 bits, the stateless handler makes a client walk the nodes in order, each asked with its own last cursor |
| Scan.SaneExactly | proc/redis/request.go:367-386 | after any other page the next call of the client leaves the walk |
| Scan.WholeIteration | proc/redis/request.go:359-389 | a client starting at 0 visits every node from its beginning to its end, gets all items, and sees 0 at the call after the last page and not before |
| Scan.TooManyNodes | proc/redis/handler.go:250-253 | from 2^15 nodes on no iteration both ends and visits all nodes |
| Slices.SliceAlloc.Make | proc/redis/bufio.go:31-50 | the slice has the wanted length, in an array of its own if empty or from 512 bytes on, else carved from the block, a new one of 8192 bytes if needed; all slices handed out stay pairwise apart and apart from the rest of the block |
| Compress.CompressInPlace | proc/redis/filter_compress.go:173-197 | the slice then holds header and compressed content if shorter, else its old bytes, and nothing outside it changes |
| Compress.CompressAt | proc/redis/filter_compress.go:163-170 | compressing one argument where it stands leaves every other argument's bytes as they were |
| Compress.ChangedPositions | proc/redis/filter_compress.go:148-171 | set, getset and setnx have values at 2, 4 and so on, hset, hmset, hsetnx, psetex and setex at 3, 5 and so on; exactly those that reach the threshold are compressed |
| Compress.StoredForm | proc/redis/filter_compress.go:173-197 | a compressed text is the bytes 40, 80, 36, the algorithm, 13, 10 and the encoded text, if that is shorter |
| Compress.ReadForm | proc/redis/filter_compress.go:215-246 | read as compressed is what begins with 40, 80, 36 and a known algorithm and unpacks behind the next two bytes; all else is left alone |
| Compress.CompressRequest | proc/redis/filter_compress.go:148-171 | exactly the value positions of the command that reach the threshold are compressed |
| DecodedArgs.ReadText | proc/redis/codec.go:199-206 | a bulk string is read into a slice of its own, cut at the line end, and no slice handed out before changes |
| DecodedArgs.LayOut | proc/redis/bufio.go:206-216 | the arguments of a request read this way hold their texts and lie pairwise apart |
| DecodedArgs.CompressDecoded | proc/redis/filter_compress.go:148-171 | so for an array request as it is decoded exactly the value positions that reach the threshold are compressed, in place |
| DecodedArgs.SplitLine | proc/redis/codec.go:117-142 | an inline command is split without copying into parts of its line, one behind the other, which are its words |
| DecodedArgs.CompressInline | proc/redis/filter_compress.go:148-171 | the same compression for an inline command, whose words share one slice |
| Compress.TextRoundTrip | proc/redis/filter_compress.go:173-246 | read back unchanged if and only if it is not the case that nothing was gained by compressing and the text has the magic number, a known algorithm and content that decodes to another text |
| Compress.MistakenExists | proc/redis/filter_compress.go:215-246 | what a codec wrote for any text it shortens, sent again below the threshold or where no value stands, is sent raw and read back as that text |
| Compress.ArgRoundTrip | proc/redis/filter_compress.go:148-246 | an argument never gets longer; it is sent raw if and only if it is no value, is below the threshold or gains nothing, and is read back unchanged if and only if it is not both sent raw and looking compressed |
| CompressPasses.ReadBackExactly | proc/redis/upstream.go:627-631 | a value written in n passes and read in m is what was written if and only if the readings are not fewer than the passes that had an effect and those beyond them leave the value alone |
| CompressPasses.ReadOnceExactly | proc/redis/filter_compress.go:118-171 | read once after one pass or more, the value is what was written if and only if it was sent raw and does not look compressed, or was shortened by the first pass and by no later one |
| CompressPasses.RedirectedWriteMisread | proc/redis/filter_compress.go:118-246 | a lossless codec and a value that a second pass shortens: one reading gives the once compressed form |
| Compress.DecompressReply | proc/redis/filter_compress.go:199-213 | every string at any depth is decompressed, numbers and errors are not |
| Compress.ReplyReadBack | proc/redis/filter_compress.go:199-246 | a reply whose strings were stored through the filter is read back as it was, at any depth, if and only if none of its strings was stored raw and looks compressed |
| Endpoints.PortTextIs | controller/controller.go:273-284 | a port is written as its decimal digits, without leading zeros |
| Endpoints.HostAddrInjective | controller/controller.go:273-284 | different endpoint addresses never share a host address |
| Endpoints.IsContainEndpoint | config/config.go:243-251 | finds the first endpoint with the address, or that there is none |
| Endpoints.RemoveEachHosts | config/config.go:211-221 | the removals announced take exactly those hosts away that were listed, and the list stays free of duplicates |
| Endpoints.AddEachHosts | config/config.go:223-233 | the additions announced add exactly the hosts that were missing |
| ConfigReplay.Store.HandleDependencyUpdate | config/config.go:147-171 | stored services and emitted events after a dependency update |
| ConfigReplay.Store.HandleSvcConfigUpdate | config/config.go:173-195 | stored services and emitted events after a configuration update, with or without a configuration |
| ConfigReplay.Store.HandleSvcEndpointUpdate | config/config.go:197-241 | stored services and emitted events after an endpoint update |
| ConfigReplay.Controller.HandleEvent | controller/controller.go:73-89 | processors after one event: added if the configuration is there and taken, removed, reconfigured if it is taken, or given or relieved of hosts |
| ConfigReplay.Controller.HandleEndpointsAdd | controller/controller.go:166-180 | an existing processor gets the hosts of the endpoints; without one nothing happens |
| ConfigReplay.Controller.HandleEndpointsRemove | controller/controller.go:182-197 | an existing processor loses the hosts of the endpoints; without one nothing happens |
| ConfigReplay.EndpointsToHosts | controller/controller.go:273-284 | each endpoint becomes its host address with its type, in order |
| ConfigAgreement.UpdateAgreesIffFair | config/config.go:147-285 | from agreement, replaying what one update emits leads to agreement if and only if the update is fair |
| ConfigAgreement.RunKeepsAgreement | controller/controller.go:73-225 | over any run of fair updates a controller that replayed all events agrees with the store |
| ConfigHistory.SinceExactly | config/config.go:147-171 | a service is there since the update that added it while it was not, with no removal from there on |
| ConfigHistory.StoreIsHistory | config/config.go:147-241 | after any updates the store holds exactly the services added and not removed since, each with the configuration of the last update that brought or took one since then, and the endpoints that the updates since then leave, each removing and then adding |
| ConfigHistory.RunAgrees | controller/controller.go:73-225 | after any run of fair updates processors run for exactly the services that were added, not removed since, and given a configuration and endpoints since, in whatever order, with the latest configuration and exactly the hosts the updates leave |
| ConfigHistory.UnfairDisagrees | config/config.go:197-241 | right after the first unfair update the processors are not what the updates demand |
| ConfigAgreement.UnfairExamples | config/config.go:211-239 | every kind of unfair update occurs |
| Discovery.StepBalanced | config/discovery.go:283-303 | every step keeps, for each name, snapshot, sent, batched and queued changes balanced with the subscribed set |
| Discovery.RunKeeps | config/discovery.go:352-434 | so does every run, across streams being lost and reopened |
| Discovery.FlushedNetIsSubscribed | config/discovery.go:352-434 | once queues and batch are empty, what was sent nets out to exactly the subscribed set |
| Discovery.SubscribedIsWanted | config/discovery.go:283-303 | a service is subscribed exactly when the last call about it in the run was a subscription |
| Discovery.FlushedNetIsWanted | config/discovery.go:352-434 | once queues and batch are empty, snapshot plus what was sent nets out to one for a service whose last call subscribed it, else to zero |
| Discovery.MessageAgrees | config/discovery.go:401-434 | for a name the message holds, a server that adds or drops first agrees after it if and only if a name on both sides ends up as its order leaves it |
| Discovery.FlushedServerAgrees | config/discovery.go:352-434 | on every flushed run the server has the subscribed set if and only if no service whose last message names it on both sides is left the other way round by the server's order |
| Discovery.DisagreeingRun | config/discovery.go:401-434 | for either order of a server, a flushed run after which it differs from the subscribed set |
| Discovery.StuckExactly | config/discovery.go:283-303 | a run ends stuck if and only if its last step is a call taking effect on a full channel without a stream, or the loss of the stream while a caller waits at a full channel |
| Discovery.StuckForever | config/discovery.go:352-370 | then no step is possible any more, as a new stream needs the lock |
| Discovery.LockReleasedIff | config/discovery.go:283-303 | a caller that holds the lock can still release it if and only if the client is not stuck |
| Discovery.StuckReachable | config/discovery.go:283-303 | seventeen subscriptions are enough, before the first stream or with a stream that is then lost |
| HostSet.LessExactly | host/host.go:345-360 | addresses are ordered as in a dictionary |
| HostSet.AscendingUnique | host/host.go:345-360 | an ascending list is determined by its addresses, so the cached list is too |
| HostSet.Set.BuildHealthyCache | host/host.go:345-360 | the cache lists exactly the selected hosts, in ascending order of address |
| HostSet.Set.AddToHealthy | host/host.go:305-323 | each host is listed under its own type, the last one of an address winning, and the cache follows |
| HostSet.Set.RemoveFromHealthy | host/host.go:325-343 | each host is taken off the list of its own type, and the cache follows |
| HostSet.Set.Add | host/host.go:363-377 | hosts become members and are listed |
| HostSet.Set.Remove | host/host.go:380-395 | hosts stop being members and are taken off the list of their type |
| HostSet.Set.ReplaceAll | host/host.go:487-494 | every old member is removed by its own type, then the new hosts are added |
| HostSet.Set.SwapHealthy | host/host.go:262-266 | the flag says healthy afterwards, and the result tells whether it changed |
| HostSet.Set.SwapUnhealthy | host/host.go:268-272 | the flag says unhealthy afterwards, and the result tells whether it changed |
| HostSet.Set.LandHealthy | host/host.go:402-408 | the host is listed, and the cache follows, exactly if its address is a member |
| HostSet.Set.LandUnhealthy | host/host.go:416-422 | the host is taken off the list, and the cache follows, exactly if its address is a member |
| HostSet.Set.MarkHostHealthy | host/host.go:398-409 | both halves with nothing in between: lists the host if its flag changed and its address is a member, and reports just that |
| HostSet.Set.MarkHostUnhealthy | host/host.go:412-423 | both halves with nothing in between: takes the host off the list if its flag changed and its address is a member, and reports just that |
| HostSet.Set.Healthy | host/host.go:425-437 | the ascending list of the main hosts listed, or of the backups when no main host is |
| HostRuns.AddAgreesIff | host/host.go:369-377 | adding a host keeps the two maps equal to the members that are up, by type, if and only if an address that is up has that host's type |
| HostRuns.RemoveAgreesIff | host/host.go:386-395 | the same for removing a host |
| HostRuns.MarkUpAgreesIff | host/host.go:398-409 | the same for marking one healthy |
| HostRuns.MarkDownAgreesIff | host/host.go:412-423 | the same for marking one unhealthy |
| HostRuns.MembersExactly | host/host.go:363-494 | after any calls the member of an address is the host last added with it, unless it was removed since |
| HostRuns.RunSound | host/host.go:305-437 | over any calls in which each address keeps its type, the maps are right |
| HostRuns.HealthyList | host/host.go:425-437 | after any such calls the list is, in order of address, the main hosts that are up, or the backups that are up when no main host is, all of them members |
| HostRuns.HealthyByFlags | host/host.go:397-437 | after any calls in which each address keeps its type, whatever host objects come and go, the list is the members of the selected type whose own flag says healthy if and only if none of these was last told wrong |
| HostRuns.ListedByFlags | host/host.go:397-423 | the same for the members of both types and the two maps |
| HostRuns.SingleNeverStale | host/host.go:397-423 | with one host object per address, added only while healthy, no address is ever told wrong |
| HostRuns.ReplacedObjectUnlisted | host/host.go:397-423 | a mark of a replaced host object unlists its successor, and marking that one healthy changes nothing |
| HostRuns.AddTellsIff | host/host.go:369-377 | adding a host keeps list and flags in step if and only if its flag says healthy |
| HostRuns.KindChangeLeavesStranger | host/host.go:369-395 | adding under one type, then the other, then removing leaves a listed address that is no member |
| HostMarks.StepTold | host/host.go:398-423 | over swaps, landings and changes of the set in any order and for any host objects, a member without a mark on its way is listed as its flag says exactly when its address was not last told wrong |
| HostMarks.QuietExactly | host/host.go:398-423 | in every run in which each address keeps its type, with no mark on its way, lists and flags agree if and only if no member was last told wrong: by a mark that on landing differed from the flag of the member of that time, or by being added with its flag down |
| HostMarks.OvertakenMark | host/host.go:398-423 | a run that leaves a host listed although its flag says unhealthy |
| HostMarks.ReplacedWhileMarked | host/host.go:398-423 | a run in which a mark of a replaced host object leaves the new member unlisted although its flag says healthy |

## Left out

- Sockets, listeners, gRPC streams, deadlines and pools: only their effect is modelled, as chunks, replies, errors, clock readings and random draws that are inputs.
- Everything under pb: generated code.
- Mutexes: a locked section is one step; only the lock of the discovery client is modelled as held across steps.
- Lfu.Counter.Incr: does not model the wrap-around of 64-bit frequencies, nor an increment at capacity 0, where the code fails for want of a node to evict from.
- Counter registration, `AllocCounter` and `Free` with its callback: a map insert and delete.
- HotKeyCollector.SumReports: does not model the wrap-around of 64-bit sums.
- HotKeys.LogCounter.RepeatIncr: probabilities are exact reals, rounding is not modelled.
- HotKeyCollector.SortedHotKeys.Insert: the slice is a sequence field, so sharing of its backing array with an earlier list is not modelled.
- Matcher.Perform: payload validation and the deadline are not modelled; a failed read inside Buffer is reported as an unexpected response, as in the code.
- RespReader.Reader.ReadBytes: the delimiter is fixed to LF, the only one in use, and a connection is taken not to return bytes together with an error.
- RespEncoder.Encoder.Encode: what a failing writer has written in part is left open.
- The target of a redirection is taken as parsed: `PipelineRuns` covers MOVED and ASK replies that are well formed.
- PipelineFate.FateExactly: "can be answered" means by some outcome of the reads and writes that are still open. What a decoder has buffered is not part of the state, so a reader at its connection may find one more reply or none, also after the connection was closed. Whether the filters stop a request, and how long its encoding is, are fixed for each request; a second compression pass may shorten it.
- PipelineRuns.NthReplyToNthRequest: creating clients is one step, and the two sends of an ASK may be separated by others, as in the code.
- The slot refresh and the choice of a host by read strategy: they change where a request goes, not how it is accounted for. A CLUSTERDOWN reply counts as final; the refresh it triggers is not modelled.
- A SCAN command without a cursor argument, answered by an error at once.
- Compress.CompressRequest: the length of an argument is taken to be below 2^32.
- Compress.DecompressReply: nested arrays are rebuilt rather than overwritten in place.
- The list of commands refused while compression is on, and of those whose replies are not decompressed: two lookups.
- ConfigReplay.Store.HandleSvcEndpointUpdate: an emitted event is a value; that an event for a new service shares the stored list until it is handled is not modelled.
- Static services of the configuration file.
- ConfigReplay.Controller.HandleEvent: whether a processor takes a configuration depends on the service and the configuration alone, so a start that fails for a passing reason is not told apart; stopping always succeeds.
- Discovery.FlushedServerAgrees: the server is not part of the repository; it is taken to keep a set and to apply each message in one of the two orders.
- HostSet.Set.Add: hosts have one of the two valid types; the removal channel of a host and its counters are not modelled.
- Random choice among healthy hosts, and `All`, `Len`, `Exist`: single lookups.
- The health check monitor, the other processors, statistics, logging, the administration interface and hot restart.
