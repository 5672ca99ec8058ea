# NavCaster core, verified

NavCaster is an NTRIP caster: base stations upload correction streams, rovers and relays fetch them, and
an HTTP interface reports on the sessions. This project models its five cores in Dafny and proves what
they keep, over every input and every run.

Code that changes things step by step is modelled by classes and loops. Each such method is proved equal
to a function of its inputs and the old state; the laws are lemmas about these functions.

- **Session statistics.** `SessionStats` folds a log of sessions into counts, clipped durations, bucket
  counters and peaks; `StatsLaws` relates these numbers to each other, and `ReportLaws` says each of them of
  the logs alone; `Ranking` is the group-by with its top rows; `DailyCache` runs the daily handler against
  clock ticks, sessions that come and go, cache expiry and crash recovery; `AuditLog` pages through a list
  that may be growing; `NodeEvents` merges the lists of several nodes.
- **Chunked transfer coding** (section 7.1 of RFC 9112). `ChunkCodec` is the writer and the recursive,
  resumable reader, `ChunkLaws` the numbers in its heads; `ChunkStream` is fragmentation, and `EmptyChunks`
  what goes wrong around empty chunks. `EvBuffer` reads lines.
- **Requests and replies.** `RequestPrinter` is the relay's request, `RequestParser` the listener's loop,
  `RequestRoundTrip` their agreement, and `RequestLaws` every answer to every request. `Handshake` is the
  caster's reply and the relay's reading of it.
- **Coroutines.** `Carrier` and `Channel` hold the events and the event channel. `ServerNtrip` is the
  coroutine of a base station, `ChunkedUpload` adds the decoder to it, and `Draining` is what both kinds of
  coroutine make of a queue. `RelayPull` is the reconnect loop of a relay, `RelayOutcomes` says how it ends,
  `Registrations` under which keys it is on record, `Reconnect` what one session leaves to the next, and
  `RelayCarrier` is the relay as an object. `ConnectBev` is the table of connections they share.
  `StationLaws`, `RelayLaws` and `ConnectLaws` are tables of what each step does, place by place and case by
  case. A step is one callback, after which the coroutine runs to its next suspension. A coroutine that is
  resumed where it is not suspended would be `Misled`; the theorems show that this never happens. `Crashed` is
  the end of the program by an exception of the decoder.
- **Registries and the request queue.** `RequestQueue` and `CasterRegistries`: stopping a carrier feeds the
  queue that is being drained. `CarrierLifetime` joins the registries with the table of connections.
- `Sequences` and `Options` are shared helpers.

Some expectations are false of the code. Each is stated with the exact condition under which it holds:

- The bounds between peak, connections and buckets fail when the cap of 200 buckets cuts the range.
- Totals over adjacent ranges fail to add up for a name with a session that ends before it starts.
- Crash recovery writes an end in the past, which changes a cached day exactly if the end lies before the end
  of that day.
- Buckets count the sessions that touch them exactly while the range spans fewer than 2^31 buckets.
- Cutting the list of a node to the limit hides events exactly if something other than an object is among the
  items fetched and an object is behind them. The merged answer is wrong exactly if such a hidden event is not
  outdone by as many gathered ones as are shown.
- The decoder throws, which ends the program, exactly if a head in force announces 2^64 - 2 bytes, or 2^64 - 1
  with a byte behind it.
- A delivery that ends inside a chunk head stops the decoder. One that starts behind the head of an empty
  chunk is harmless if it ends at the end of that chunk or one byte later; if it ends two bytes or more into a
  following chunk of data, it eats bytes of its head, and by the end of that chunk data is missing or the
  decoder has given up. If the following chunk is empty too, its head is dropped as well and nothing is lost.
- A carrier that replaces another under the same key is destroyed by the request that the old one queued when
  it was stopped, except for relays.
- A carrier that replaces another under the same key points to a connection that the old one's destructor
  frees, exactly if that connection is still stored.
- A base station whose queued reads make the decoder stop goes on through the rest of its queue, while one
  that gets the same events one by one has finished.
- A relay that loses its connection during the handshake waits until data arrives, which is for ever; stopped
  while it waits for the connection or the handshake, it never frees the connection. Two pieces that together
  are whole chunks and arrive while a chunked relay waits for its registration end it for good. Events left
  over from a failed attempt end the next session.
- The core is asked to withdraw what it has been asked to register, with two exceptions. A base station that
  is stopped before it asks withdraws nothing then, asks all the same, and stays on record if it succeeds. A
  relay that is refused keeps its record under the old key, unless it is stopped before it tries again.
- A relay without a connection still has its last key. If another connection has got that key since, stopping
  the relay takes that connection's timers away, and waking up stopped frees it.
- What a session leaves in the buffer is read in front of the next handshake's reply, and makes it fail unless
  both together are a good reply. The size of an unfinished chunk is carried on to the next session, whose
  first bytes are then taken for data.
- The comment at doc/session/relay_pull.h:171 says that `stop()` may already have freed the connection; the
  code of `stop()` only disarms it, and the model follows the code.
- A connection that is renamed leaves its timers behind, and one whose new key is taken is lost.

## Model

| member | source | states |
|---|---|---|
| `SessionStats.Overview` | src/http/http_handler.cpp:1762-1929 | over any two logs and any range, the report is the one defined by counting, clipping and marking (`ReportOf`), with the bucket size and number chosen by the length of the range; every index written is in range, also with the cap of 200 buckets |
| `SessionStats.Summarize` | src/http/http_handler.cpp:1826-1907 | the common part of both handlers: loops, peaks, averages and trend give exactly the defined report |
| `SessionStats.ProcessLogs` | src/http/http_handler.cpp:1826-1886 | the loop over a log, which dispatches each session to the relay or the plain group, computes for each group its count, its clipped duration, its set of names and its bucket counts |
| `SessionStats.Tally.Mark` | src/http/http_handler.cpp:1868-1881 | adds 1 exactly to the buckets between the two quotients as the source casts and clamps them, and to no other; in bounds whatever the times are |
| `SessionStats.Tally.Add` | src/http/http_handler.cpp:1845-1881 | one session adds 1 to the count, its clipped length to the duration of a plain group, its name if it has one, and its marks; a relayed session adds neither name nor duration |
| `SessionStats.PeakOf` | src/http/http_handler.cpp:1888-1894 | the peak is the largest bucket, never below 0 |
| `SessionStats.Trend` | src/http/http_handler.cpp:1896-1907 | one row per bucket with its start time and the four counters |
| `SessionStats.MarkedByDivision` | src/http/http_handler.cpp:1868-1875 | C++ division of the clipped ends, before the casts, finds exactly the buckets that the clipped session reaches, for negative quotients too |
| `SessionStats.CastsExact` | src/http/http_handler.cpp:1871-1872 | the casts to 32 bits do not change the bucket numbers while the range spans fewer than 2^31 buckets |
| `SessionStats.BucketMeaning` | src/http/http_handler.cpp:1868-1881 | for a non-empty range of fewer than 2^31 buckets each bucket counts exactly the surviving sessions whose clipped interval touches it |
| `SessionStats.BucketsCountExactlyIfFit` | src/http/http_handler.cpp:1868-1881 | the buckets of every log count the sessions that touch them if and only if the range spans fewer than 2^31 buckets; beyond that a session that lasts long enough is marked nowhere, because its last bucket turns negative in the cast |
| `SessionStats.ReportOrderFree` | src/http/http_handler.cpp:1828-1882 | a report does not depend on the order in which the store lists the sessions |
| `StatsLaws.DurationBound` | src/http/http_handler.cpp:1858-1881 | when at most 200 buckets cover the range, the clipped durations are at most one bucket length per mark |
| `StatsLaws.PeakBounds` | src/http/http_handler.cpp:1888-1894 | with sessions in order and at most 200 buckets that cover the range, peak <= connections <= peak * buckets |
| `StatsLaws.BucketsAreMarks` | src/http/http_handler.cpp:1880-1881 | summing the buckets and summing the marks of each session give the same number |
| `StatsLaws.BoundedExactlyWhenUncapped` | src/http/http_handler.cpp:1809-1820 | the bounds between peak, connections, durations and trend hold for all logs if and only if the cap of 200 buckets did not cut the range |
| `StatsLaws.UncappedRanges` | src/http/http_handler.cpp:1813-1820 | the cap cuts exactly the ranges longer than 200 weeks |
| `ReportLaws.ReportCounts` | src/http/http_handler.cpp:1826-1866 | for any two logs, the six counts of a report are those of the sessions that had not ended before the range and began before its end: relayed ones are of type 5 for mount points and 6 for users, and names are counted once |
| `ReportLaws.ReportAverages` | src/http/http_handler.cpp:1853-1921 | for any two logs and both averages, with d seconds clipped to the range in n sessions: avg * n <= d < (avg + 1) * n for d >= 0, the mirrored bounds for d < 0, and 0 for no sessions |
| `ReportLaws.ReportPeaks` | src/http/http_handler.cpp:1888-1919 | each peak is at least every entry of its column of the trend, and is one of them or 0 |
| `ReportLaws.ReportTrend` | src/http/http_handler.cpp:1868-1907 | row i of the trend starts i buckets into the range and counts, of each of the four kinds, the sessions under way in that bucket |
| `ReportLaws.OverviewBuckets` | src/http/http_handler.cpp:1809-1820 | buckets are hours up to 48 hours, days up to 31 days and weeks from then on; their number covers the range with none to spare, is at least 1, and is 200 for longer ranges |
| `ReportLaws.CountExactly` | src/http/http_handler.cpp:1818-1820 | for every range, the number of buckets that cover it is cast to 32 bits and then brought between 1 and 200, also where the cast makes it negative |
| `Ranking.Aggregate` | src/http/http_handler.cpp:2115-2141 | the map has one entry per name in range, each with the name's exact total, count, latest end, mount points and type bits |
| `Ranking.Rank` | src/http/http_handler.cpp:2099-2234 | the output has min(limit, names) rows, longest first, each the exact total of a distinct name, and no omitted name is longer than a listed one |
| `Ranking.TopRows` | src/http/http_handler.cpp:2143-2161 | copying, sorting and cutting the map keeps the longest rows |
| `Ranking.OmittedAreNoLonger` | src/http/http_handler.cpp:2148-2152 | cutting a descending list that shows every name leaves out only names that are no longer |
| `Ranking.GroupTotalsConserve` | src/http/http_handler.cpp:2119-2138 | the totals of all names together are the overlaps of the named sessions in range |
| `Ranking.AdjacentRangesAdd` | src/http/http_handler.cpp:2119-2138 | a name's totals over [a,b) and [b,c) add up to its total over [a,c) when its sessions are in order |
| `Ranking.AdditiveExactlyWhenOrdered` | src/http/http_handler.cpp:2119-2138 | a name's totals are additive for all adjacent ranges if and only if none of its sessions ends before it starts |
| `ReportLaws.RowExactly` | src/http/http_handler.cpp:2119-2138 | a row is what its name has in the log: the seconds clipped to the range, the number of sessions, the latest end, the mount points, and the types from 1 to 30 |
| `ReportLaws.RankingExactly` | src/http/http_handler.cpp:2107-2152 | the ranked names are those of sessions in the range, and there are 20 rows for no limit or one below 1, the limit up to 100, and 100 above |
| `DailyCache.StatsServer.HandleDaily` | src/http/http_handler.cpp:1956-2096 | the handler answers as specified and its cache afterwards is the specified one |
| `DailyCache.LogFrozen` | src/http/http_handler.cpp:1980-2050 | passing time and sessions that close after a day's end change no count, duration, name set or bucket of that day |
| `DailyCache.NewcomerInvisible` | src/http/http_handler.cpp:1980-2050 | a session that opens at or after the end of a day does not appear in it |
| `DailyCache.StepKeepsCoherence` | src/http/http_handler.cpp:1956-2096 | clock tick, connect, disconnect, query and expiry each keep every cached day over and equal to recomputation |
| `DailyCache.RunsStayCoherent` | src/http/http_handler.cpp:1956-2096 | over every run, every cached day is over and equal to recomputing it now from the current logs |
| `DailyCache.CacheIsInvisible` | src/http/http_handler.cpp:1956-2096 | from an empty cache, after any run, the answer for any date is what a fresh computation gives |
| `DailyCache.PastDaysNeverChange` | src/http/http_handler.cpp:1956-2096 | whatever happens after a day's end, its report stays what it was |
| `DailyCache.CompensateKeepsCoherence` | src/core/src/caster_internal.cpp:286-302 | crash recovery that closes a session no earlier than the end of every cached day keeps the cache coherent |
| `DailyCache.HarmlessExactlyAfterTheDay` | src/core/src/caster_internal.cpp:286-302 | recovery leaves the report of a past day alone, for all logs, if and only if the end it writes is not before the end of the day |
| `DailyCache.CompensateCanBreakCoherence` | src/core/src/caster_internal.cpp:286-302 | a run with a cached day that no longer equals recomputation after recovery closes a session inside that day |
| `AuditLog.AuditStore.WriteAudit` | src/http/http_handler.cpp:3216-3266 | a changing request puts one numbered entry in front and trims the list to 50000; others, and logins, change nothing; numbers strictly decrease along the list |
| `AuditLog.GetAudit` | src/http/http_handler.cpp:3268-3314 | one page holds the matching entries of the window up to the limit, and its cursor points behind the last entry scanned |
| `AuditLog.Scan` | src/http/http_handler.cpp:3288-3301 | the scan stops at the first entry that fills the page or at the end of the window |
| `AuditLog.PageIsSlice` | src/http/http_handler.cpp:3282-3302 | a page is the filtered slice between its cursor and the next, and advances |
| `AuditLog.ChainReadsPrefix` | src/http/http_handler.cpp:3282-3307 | following the cursor reads a filtered prefix of the list |
| `AuditLog.PaginationExact` | src/http/http_handler.cpp:3282-3307 | on a fixed list following the cursor ends within its length, and the pages concatenate to exactly the filtered list |
| `AuditLog.NothingMissedWhilePushing` | src/http/http_handler.cpp:3262-3307 | while entries are pushed between requests, a crawl that reaches the end has returned every matching starting entry that was not trimmed |
| `AuditLog.PageExactly` | src/http/http_handler.cpp:3268-3314 | a page holds the entries between its cursor and the next that pass the filter, in order, an empty filter passing all and an action only having to be contained; the next cursor lies at the end of the list, four limits further on, or just behind the entry that filled the page; there is more exactly if it is not at the end |
| `AuditLog.LimitsExactly` | src/http/http_handler.cpp:3262-3276 | a page holds 100 entries unless a number from 1 to 1000 is asked for, and the list keeps 50000 |
| `AuditLog.RangeExactly` | src/http/http_handler.cpp:3283-3285 | both ends of a range of the list belong to it, and negative ones count from the end |
| `NodeEvents.SystemEvents` | src/http/http_handler.cpp:3354-3385 | the result is the newest-first order of the objects among the first `limit` items of every node list, cut to `limit` |
| `NodeEvents.SinceHead` | src/http/http_handler.cpp:3369-3374 | cutting a newest-first list to `limit` keeps min(limit, all) of the events since any time, if the list is short, or what is fetched are objects only, or no object stands behind that |
| `NodeEvents.CutExactlyHarmless` | src/http/http_handler.cpp:3369-3374 | cutting a newest-first list keeps min(limit, all) of the events since every time if and only if the list is short, or the first `limit` items are all objects, or none behind them is |
| `NodeEvents.TruncatedMergeIsTopK` | src/http/http_handler.cpp:3368-3382 | if no cut hides anything in this sense, merging the truncated newest-first lists shows the same timestamps as merging the complete lists |
| `NodeEvents.SingleNodeExactly` | src/http/http_handler.cpp:3368-3382 | with a single node the answer shows the timestamps of the complete list if and only if its cut hides nothing |
| `NodeEvents.MergeExactlyIfLate` | src/http/http_handler.cpp:3368-3382 | for any lists in any order, the answer shows the timestamps that the complete lists would give if and only if, for each object behind a cut, at least `limit` of the gathered objects are as recent |
| `NodeEvents.NonObjectHidesEvent` | src/http/http_handler.cpp:3369-3374 | the smallest case: with a limit of 1 an item that is not an object hides the event behind it, and the answer is empty |
| `NodeEvents.NewestExactly` | src/http/http_handler.cpp:3375-3380 | as many events of the pool as fit, newest first, and none is left out that is newer than one that is shown |
| `NodeEvents.ListsExactly` | src/http/http_handler.cpp:3362-3371 | the lists read are those under the keys that start with "LOG:NODE:" and go on; a key that has vanished has an empty list |
| `NodeEvents.GatheredExactly` | src/http/http_handler.cpp:3370-3374 | of each list the objects among the first `limit` items are gathered |
| `NodeEvents.LimitExactly` | src/http/http_handler.cpp:3356-3359 | 100 events unless a number from 1 to 500 is asked for |
| `ChunkCodec.Writer.SendData` | doc/session/carrier_base.cpp:479-495 | puts the chunk, or the bare data, behind what was buffered and hands all of it to the connection |
| `ChunkCodec.Reader.ReadDataFromChunk` | doc/session/carrier_base.cpp:543-594 | the recursive decoder over the buffer and the remembered size does what `Decode` says, the 64-bit wrap of `_chunked_size + 2` and the exception behind it included, and terminates because the buffer shrinks |
| `ChunkCodec.ScanPrintedSize` | doc/session/carrier_base.cpp:483-560 | the hexadecimal size that is printed is the size that is scanned |
| `ChunkCodec.OutputFromInput` | doc/session/carrier_base.cpp:543-594 | from any buffer and any remembered size, and however the call ends, the bytes returned and then the bytes left over occur in the buffer in this order |
| `ChunkCodec.ThrowsExactlyOnOverflow` | doc/session/carrier_base.cpp:546-578 | a call of the decoder throws if and only if some size in force, after any number of whole chunks, is 2^64 - 2, or is 2^64 - 1 with at least one byte behind its head |
| `ChunkCodec.HugeHeadThrows` | doc/session/carrier_base.cpp:546-578 | the head ffffffffffffffff alone makes the decoder wait, and any byte behind it makes it throw |
| `ChunkCodec.WholeStreamDecodes` | doc/session/carrier_base.cpp:479-594 | any one or more payloads of fewer than 2^64 - 2 bytes, empty ones included, decode back from their stream, with an empty buffer and size 0 left |
| `ChunkCodec.DecodesExactlyIfSendable` | doc/session/carrier_base.cpp:479-594 | among the streams whose sizes can be printed in 64 bits, exactly those without a payload of 2^64 - 2 or 2^64 - 1 bytes decode back |
| `ChunkLaws.DigitsExactly` | doc/session/carrier_base.cpp:479-562 | the printed digits are those of "0123456789abcdef" in order; these and "0123456789ABCDEF" are read, with their places as values, and no other character is a digit |
| `ChunkLaws.PrintedExactly` | doc/session/carrier_base.cpp:481-486 | a size is printed in base 16 without a leading zero |
| `ChunkLaws.ScannedExactly` | doc/session/carrier_base.cpp:559-562 | white space, a sign, `0x` and digits are read as a number, whatever follows; one that does not fit in 64 bits is the largest, and a negative one is counted back from 2^64 |
| `ChunkLaws.NothingScanned` | doc/session/carrier_base.cpp:550-562 | a head without a digit announces its own length |
| `ChunkLaws.CallsExactly` | doc/session/carrier_base.cpp:565-592 | with a size in force the decoder waits for the data and two more bytes, whatever they are, returns the data and goes on with the rest; for the two largest sizes it throws, for the largest only if a byte is there |
| `ChunkLaws.HeadsExactly` | doc/session/carrier_base.cpp:546-563 | without a size in force the first line is the head; without a line the decoder stops and leaves the buffer; a head of size 0 drops two bytes |
| `ChunkStream.HarmlessIsExact` | doc/session/carrier_base.cpp:543-594 | a delivery that is harmless, by where it starts and ends, returns exactly the chunks that became whole and leaves the rest and its size |
| `ChunkStream.HarmfulStopsOrEats` | doc/session/carrier_base.cpp:543-594 | every other delivery, from any position where the decoder can rest, makes it call `stop()` or eat two bytes of the head of a chunk that carries data |
| `ChunkStream.DeliverAll` | doc/session/carrier_base.cpp:543-594 | delivering a stream piece by piece to the reader object is the recursive reference run |
| `ChunkStream.FragmentsDecode` | doc/session/carrier_base.cpp:543-594 | for every list of payloads and every fragmentation into harmless deliveries, after each delivery the output is exactly the data of the chunks wholly received, and the decoder has neither stopped nor thrown |
| `ChunkStream.StopsExactlyAtBadCuts` | doc/session/carrier_base.cpp:546-558 | with non-empty payloads the decoder calls `stop()` if and only if some delivery ended strictly inside a chunk head, and never throws |
| `EmptyChunks.EatingLosesData` | doc/session/carrier_base.cpp:546-578 | once a delivery has eaten two bytes of the head of a chunk that carries data, by the end of that chunk less than its data has come out, or the decoder has stopped or thrown, however the chunk is cut from there |
| `EmptyChunks.ExactExactlyIfHarmless` | doc/session/carrier_base.cpp:543-594 | if some delivery ends just behind each chunk of data that follows an empty one, the output is exact after every delivery if and only if every delivery is harmless |
| `EmptyChunks.EmptyChunkExample` | doc/session/carrier_base.cpp:546-578 | for an empty payload and "hello", the output is exact after every piece when these end at 3, 5 and 15, and not when they end at 3 and 15 |
| `EmptyChunks.RightByAccident` | doc/session/carrier_base.cpp:546-578 | why the condition on the cuts is needed: a delivery that eats and runs on into later chunks can come out right by accident |
| `Draining.SecondReadStops` | doc/session/carrier_base.cpp:546-558 | a second read event for a stream that the first one has taken as a whole finds no line and calls `stop()` |
| `RequestRoundTrip.RequestLineRoutes` | src/service/ntrip_listener.cpp:243-353 | the listener routes every printed request line to the right handler with the right address and secret, the three-word SOURCE line with an empty password included |
| `RequestRoundTrip.HeadersReadBack` | src/service/ntrip_listener.cpp:577-640 | printed header lines are read back into the map, up to an empty line, one without a colon or one that is too long, and nothing behind that is consumed |
| `RequestRoundTrip.CredentialsReadBack` | src/service/ntrip_listener.cpp:785-797 | printed Basic credentials decode to what was encoded (section 2 of RFC 7617) |
| `RequestRoundTrip.InfoReadBack` | src/service/ntrip_listener.cpp:577-699 | the record filled from the headers has the mount point, host, version, chunked flag and credentials that were printed, and nothing else |
| `RequestRoundTrip.RequestUnderstood` | src/service/ntrip_listener.cpp:228-552 | for every printable request and whatever follows it, the listener's answer to `build_ntrip_request` is the one for what the relay was told: GET, POST or SOURCE, mount point, host, version, chunked flag, user and password, with a position exactly if what follows is shorter than 4096 bytes and gives one; nothing behind the request is consumed, and nothing of it is left, unless logins of base stations are off |
| `RequestLaws.SourceLogin` | src/service/ntrip_listener.cpp:508-552 | a relay that prints a SOURCE request with the password p, alone or behind a user and a colon, is answered, for every printable request: rejected with 1 without server login, with 2 for a nearest mount point, with 3 for an alias, and otherwise verified as a server with user name p, password p and `p:p`, all three empty for an empty p; the record is given field by field |
| `RequestLaws.PostLogin` | src/service/ntrip_listener.cpp:469-506 | the same for a printed POST request, whose credentials, host, version and chunked flag are in the record |
| `RequestLaws.GetLogin` | src/service/ntrip_listener.cpp:407-467 | the same for a printed GET request in both versions: rejected, source table without verification exactly if neither name nor password is given, source table verified, nearest mount point, or client |
| `RequestLaws.GetAnswers` | src/service/ntrip_listener.cpp:407-467 | every answer to a GET request that anybody wrote, with any good header lines in any order, repeated ones included, ended by an empty line, a line without a colon or one that is too long, and any address: the answer and the whole record, and what is left of the buffer |
| `RequestLaws.PostAnswers` | src/service/ntrip_listener.cpp:469-506 | the same for a POST request |
| `RequestLaws.SourceAnswers` | src/service/ntrip_listener.cpp:508-552 | the same for a SOURCE request, whose password replaces the credentials of the headers unless it is empty |
| `RequestLaws.BadNamesRefused` | src/service/ntrip_listener.cpp:738-762 | a mount point with a character that may not be in it is refused and the headers are not looked at |
| `RequestLaws.MountNames` | src/service/ntrip_listener.cpp:798-808 | exactly letters, digits, `_`, `.` and `-` may be in a mount point, which may be empty |
| `RequestLaws.OneOrTwoWords` | src/service/ntrip_listener.cpp:280-330 | a request line of one word is refused; one of two only means something to SOURCE, unless the second is a version |
| `RequestLaws.ThreeWords` | src/service/ntrip_listener.cpp:280-353 | a request line of three words, whatever white space is between them: the handler, address and password it leads to, or that it is refused |
| `RequestLaws.FourWords` | src/service/ntrip_listener.cpp:280-353 | the same for four words or more |
| `RequestLaws.LengthsExactly` | src/service/ntrip_listener.cpp:242-275 | a request line has 9 to 255 characters; one without a line end is only taken if the listener allows it and it is shorter than 255 |
| `RequestLaws.AddressExactly` | src/service/ntrip_listener.cpp:738-783 | an address is cut at its first question mark, and one slash in front of it may be missing |
| `RequestLaws.StoredExactly` | src/service/ntrip_listener.cpp:614-636 | a header line is stored under the text before its first colon; the character behind the colon is skipped whatever it is |
| `RequestLaws.RecordExactly` | src/service/ntrip_listener.cpp:642-690 | the record gets from each header the last value with its key; the agent is that of `User-Agent` if there is one, and credentials count only with a colon |
| `RequestLaws.BasicExactly` | src/service/ntrip_listener.cpp:785-796 | a token behind "Basic " at the start of the value is decoded up to white space; any other value decodes as the empty text |
| `RequestLaws.PlaceExactly` | src/service/ntrip_listener.cpp:692-733 | the position of the header counts unless it is missing or zero and the text behind the request, of at most 4095 bytes, has one |
| `RequestLaws.SourceLines` | doc/session/carrier_base.cpp:103-112 | a printed SOURCE request line by line |
| `RequestLaws.PostLines` | doc/session/carrier_base.cpp:92-102 | a printed POST request line by line |
| `RequestLaws.GetLines` | doc/session/carrier_base.cpp:74-84 | a printed GET request line by line |
| `RequestParser.Listener.DecodeHeaders` | src/service/ntrip_listener.cpp:577-640 | the loop that consumes the buffer line by line fills the map as specified |
| `RequestParser.Listener.ProcessBevRequest` | src/service/ntrip_listener.cpp:228-353 | consumes the request line and dispatches it as specified, the rejections included |
| `RequestParser.Listener.ProcessGet` | src/service/ntrip_listener.cpp:407-467 | the outcome of a GET request and what is left of the buffer |
| `RequestParser.Listener.ProcessPost` | src/service/ntrip_listener.cpp:469-506 | the outcome of a POST request and what is left of the buffer |
| `RequestParser.Listener.ProcessSource` | src/service/ntrip_listener.cpp:508-552 | the outcome of a SOURCE request and what is left of the buffer; the secret is user and password |
| `Handshake.FindsFirst` | doc/session/carrier_base.cpp:149-152 | the first occurrence is found |
| `Handshake.ChunkedIsNamed` | doc/session/carrier_base.cpp:148-160 | a reply whose first word "chunked" stands behind `Transfer-Encoding: ` on its own line is seen as chunked |
| `Handshake.ReplyIsUnderstood` | doc/session/carrier_base.cpp:7-177 | a relay reads every reply that `build_nrtip_reply` prints as accepted, with its version, and as chunked exactly when it is, if neither the program's name nor the date contains the word "chunked" |
| `Handshake.HttpAcceptedExactly` | doc/session/carrier_base.cpp:134-164 | for every version text without a blank, every code of three characters and every tail, an HTTP reply is accepted if and only if the code is 200 |
| `Handshake.HttpCutShort` | doc/session/carrier_base.cpp:138-139 | an HTTP reply without a blank, or cut before the end of its code, is refused |
| `Handshake.OldReplies` | doc/session/carrier_base.cpp:125-177 | "ICY 200 OK" and "OK" are accepted as the first version without chunks, and every reply that starts with none of the three texts is refused, a source table among them |
| `Handshake.ChunkedExactly` | doc/session/carrier_base.cpp:146-161 | an accepted HTTP reply is chunked if and only if the first "chunked" stands behind "ransfer-" in a line that is not the first |
| `Handshake.ReplyToServer` | doc/session/carrier_base.cpp:7-25 | the reply to a base station line by line |
| `Handshake.ReplyToClient` | doc/session/carrier_base.cpp:28-53 | the reply to a client line by line |
| `Channel.EventChannel.AwaitNext` | doc/session/carrier_base.h:94-114 | a coroutine goes on at once if something is queued or the channel is closed, and is stored as waiter otherwise; the end is only handed out when everything pushed has been |
| `Channel.EventChannel.PushEvent` | doc/session/carrier_base.h:116-125 | no lost wakeup: a waiting coroutine gets the pushed event now |
| `Channel.EventChannel.CloseChannel` | doc/session/carrier_base.h:127-136 | a waiting coroutine gets the end, having got everything |
| `Channel.EventChannel.Reset` | doc/session/carrier_base.h:138-143 | the channel is empty, open and without waiter again |
| `Channel.AppliedExactly` | doc/session/carrier_base.h:87-151 | every operation on a channel, with and without a waiting coroutine: what is queued afterwards, whether somebody waits, and what is handed out |
| `Channel.FifoNoLostWakeup` | doc/session/carrier_base.h:87-151 | over every sequence of operations, between resets, the events pushed are the events got followed by the queue, and a waiter means an empty queue and an open channel |
| `Channel.EndAfterEverything` | doc/session/carrier_base.h:104-112 | the end is seen only on a closed channel after everything pushed |
| `ConnectBev.ConnectTable.Add` | src/service/connect_bev.cpp:34-45 | adding under a taken key changes nothing and returns 1 |
| `ConnectBev.ConnectTable.NewFromDial` | src/service/connect_bev.cpp:47-99 | the new state of all three maps and what was freed, for each way that resolving, connecting and naming can end |
| `ConnectBev.ConnectTable.NewFromAccept` | src/service/connect_bev.cpp:101-112 | an accepted connection without a name is not stored |
| `ConnectBev.ConnectTable.Del` | src/service/connect_bev.cpp:114-131 | removes timers and entry and frees the bufferevent once |
| `ConnectBev.ConnectTable.Rename` | src/service/connect_bev.cpp:133-147 | inserts the new key and erases the old one |
| `ConnectBev.ConnectTable.Recalculate` | src/service/connect_bev.cpp:149-164 | renames when the socket has another name, and returns the key to use |
| `ConnectBev.ConnectTable.SetTimers` | src/service/connect_bev.cpp:192-244 | sets both timers of a stored connection |
| `ConnectBev.ConnectTable.DelTimers` | src/service/connect_bev.cpp:246-261 | removes both timers of a stored connection |
| `ConnectBev.RunsAreSafe` | src/service/connect_bev.cpp:34-261 | over every sequence of operations with freshly allocated bufferevents none is freed twice, no key leads to a freed one, no two keys share one, the timer maps have equal keys, and each one handed over is stored, freed or lost, and only one of these |
| `ConnectBev.LostExactlyOnCollision` | src/service/connect_bev.cpp:47-164 | a step drops a bufferevent without freeing it if and only if the key it inserts is taken, and then exactly one |
| `ConnectBev.TimersStayBehindExactlyOnRename` | src/service/connect_bev.cpp:133-164 | the timers all belong to stored connections after a step if and only if it does not rename a connection that has timers |
| `ConnectLaws.AddedExactly` | src/service/connect_bev.cpp:34-45 | a free key gets the bufferevent and nothing else changes; a taken key changes nothing |
| `ConnectLaws.TimersExactly` | src/service/connect_bev.cpp:192-261 | both timers of a stored key get their values or are removed, and no timer of another key changes |
| `ServerNtrip.Station.constructor` | doc/session/carrier_base.cpp:217-221 | starting the coroutine suspends it in the authentication |
| `ServerNtrip.Station.AuthLoginCb` | doc/session/carrier_base.cpp:240-258 | an authentication reply resumes the coroutine once, and is posted from then on |
| `ServerNtrip.Station.CasterRegisterCb` | doc/session/carrier_base.cpp:259-276 | a registration reply resumes the coroutine once, and is posted from then on |
| `ServerNtrip.Station.BevReadCallback` | doc/session/carrier_base.cpp:596-601 | the bytes go into the buffer and an event is posted, which the coroutine handles at once if it waits |
| `ServerNtrip.Station.StopCarrier` | doc/session/carrier_base.cpp:222-238 | `stop()` closes the channel, which resumes a waiting coroutine, and queues one request to destroy the carrier |
| `ServerNtrip.Station.RunLoop` | doc/session/server_ntrip.h:49-92 | the event loop drains the channel and leaves on a kick, a failed login, a lost connection or the end, as the reference loop does |
| `ServerNtrip.Station.ReadAndPublish` | doc/session/server_ntrip.h:53-59 | reads the buffer with or without chunk decoding and publishes what comes out |
| `ServerNtrip.LoopIsSound` | doc/session/server_ntrip.h:49-92 | the loop ends waiting in the channel or finished, with no other handle stored; the events it has got are followed by those still queued |
| `ServerNtrip.StepIsAccounted` | doc/session/carrier_base.cpp:240-360 | every callback and every stop keeps the coroutine suspended in exactly one place and accounts for the event |
| `ServerNtrip.RunsAreSound` | doc/session/carrier_base.cpp:240-360 | over every run the coroutine has finished, or is suspended in exactly the place whose handle is stored, or the decoder has thrown and the program has ended; it was never resumed anywhere else. While the program runs, the first authentication reply and the first registration reply after a positive one answer the awaits, and all other callbacks are got from the channel in order |
| `ServerNtrip.BytesConserved` | doc/session/carrier_base.cpp:529-541 | without chunking, published bytes followed by the buffer are the bytes received, and the buffer is empty while the coroutine waits |
| `ServerNtrip.Station.Drive` | doc/session/server_ntrip.h:19-92 | the object driven over any list of inputs is in the state of the reference run, and sound |
| `ServerNtrip.LoopEndsAt` | doc/session/server_ntrip.h:49-92 | where draining the queue takes the coroutine, in either coding: one decoder call for each read event before the first event that ends the loop |
| `ServerNtrip.RegistrationOutcome` | doc/session/server_ntrip.h:29-92 | in either coding a positive answer leaves a finished carrier on record if and only if it had been stopped before it asked to be registered and not since, and draining what was queued meanwhile neither stops it again nor ends the session or the program |
| `ServerNtrip.LeftOverExactly` | doc/session/server_ntrip.h:19-92 | over every run a carrier finishes and stays on record if and only if it was stopped before it asked to be registered and not since, the answer was positive, and nothing queued by then stopped it or ended the session or the program |
| `ServerNtrip.EarlyStopLeaks` | doc/session/carrier_base.cpp:446-465 | the smallest runs: stopped, authenticated, registered leaves a record; authenticated, stopped, registered leaves none |
| `StationLaws.RunningReacts` | doc/session/server_ntrip.h:61-89 | a running carrier is ended, with one more request to destroy it and its registration withdrawn, if and only if the event that is not a read is a change of the connection, an authentication reply other than OK, or a registration error; any other event changes nothing |
| `StationLaws.RunningPublishes` | doc/session/server_ntrip.h:53-59 | without chunking a running carrier publishes what arrives, at once and whole |
| `StationLaws.RunningDecodes` | doc/session/server_ntrip.h:53-59 | with chunking it publishes what one call of the decoder returns; the decoder's stop ends the carrier and its exception the program |
| `StationLaws.AuthAnswered` | doc/session/server_ntrip.h:24-30 | only a positive authentication reply makes the carrier ask for its registration; any other ends it |
| `StationLaws.RegistrationRefused` | doc/session/server_ntrip.h:33-39 | any registration reply but a positive one ends the carrier |
| `StationLaws.RegistrationGranted` | doc/session/server_ntrip.h:33-49 | with nothing queued a positive reply is greeted, and the carrier runs, or has finished if it had been stopped |
| `StationLaws.OthersAreQueued` | doc/session/server_ntrip.h:24-89 | what does not answer the carrier where it waits, and everything once it has finished, is queued and does nothing else |
| `StationLaws.StoppedExactly` | doc/session/carrier_base.cpp:222-238 | stopping asks once more for destruction, withdraws, and closes the channel; a running carrier finishes, any other stays where it is |
| `StationLaws.QueuedIsPosted` | doc/session/server_ntrip.h:33-89 | a positive answer with events queued does what the answer alone would do, and then each event in turn as if it had only come now, if and only if no call of the decoder stops the carrier before the last of them |
| `StationLaws.ClosedLikeOpen` | doc/session/server_ntrip.h:49-92 | the queue of a stopped carrier is drained as if it had not been stopped; where it would wait for more it has finished |
| `ChunkedUpload.ReadDecodes` | doc/session/server_ntrip.h:53-59 | one read event at a waiting coroutine is one call of the chunk decoder: the session goes on if it waits, ends if it stops, and the program ends if it throws |
| `ChunkedUpload.UploadPublishesWholeChunks` | doc/session/server_ntrip.h:19-92 | a base station that logs in and uploads a chunked stream in harmless pieces, and any events in between that do not end the session, stays connected, and exactly the chunks wholly received have been published |
| `ChunkedUpload.BadCutEndsSession` | doc/session/carrier_base.cpp:546-558 | the first piece that is not harmless ends the session, unless it eats bytes of a head |
| `ChunkedUpload.HugeHeadEndsProgram` | doc/session/carrier_base.h:39-44 | a running chunked station that sends the largest head and one more byte ends the program |
| `RelayCarrier.PullRelay.TryConnect` | doc/session/relay_pull.h:42-56 | the top of the loop: finish if stopped, sleep if no connection can be made, wait for the connection otherwise |
| `RelayCarrier.PullRelay.BevEventCb` | doc/session/carrier_base.cpp:335-352 | a connection event resumes a coroutine that waits for it, which destroys the connection and sleeps, or renames it and sends the request; otherwise it is posted |
| `RelayCarrier.PullRelay.BevReadCallback` | doc/session/carrier_base.cpp:300-316 | data resumes a coroutine that waits for the handshake with the whole buffer; otherwise it is posted |
| `RelayCarrier.PullRelay.CasterRegisterCb` | doc/session/carrier_base.cpp:259-276 | a registration reply resumes a coroutine that waits for it; otherwise it is posted |
| `RelayCarrier.PullRelay.TimerFires` | doc/session/carrier_base.h:169-189 | waking up lengthens the delay and starts the next attempt |
| `RelayCarrier.PullRelay.StopCarrier` | doc/session/relay_pull.h:25-36 | `stop()` disarms the connection, withdraws the registration and closes the channel, which resumes a running coroutine |
| `RelayCarrier.PullRelay.RunLoop` | doc/session/relay_pull.h:127-168 | the event loop handles events until it waits, finishes, has cleaned up and sleeps, or the decoder throws, as the reference loop does |
| `RelayCarrier.PullRelay.LeaveSession` | doc/session/relay_pull.h:157-167 | a stopped relay frees its connection and finishes; any other disarms, withdraws, frees, resets the channel and sleeps, in this order |
| `RelayCarrier.PullRelay.RunFrom` | doc/session/relay_pull.h:25-174 | an object made beside other connections and driven over any list of fresh inputs, those of other users of the table included, is in the state of the reference run, and sound |
| `RelayPull.StepIsSound` | doc/session/relay_pull.h:25-174 | every step keeps the relay sound, and each callback becomes the result of exactly the await that the coroutine is in, or exactly one posted event; a step that is not another user's changes no entry and no timers of the table but the relay's own, if and only if it does not reach for a last key that another user has taken |
| `RelayPull.RunsAreSound` | doc/session/relay_pull.h:38-174 | over every run, while other users do anything to the table with all keys but that of the relay's connection, the coroutine has finished or is suspended in exactly one place, or the program has ended, and it was never resumed elsewhere; it owns at most one connection, stored under its key, has freed every other one it dialled, and the table stays safe and accounted for; from asking for a registration to the end of the session its key is on record unless it was stopped |
| `RelayPull.NothingHeldAsleep` | doc/session/relay_pull.h:49-167 | asleep or finished, it has freed every connection it ever dialled |
| `RelayPull.NeighbourKeepsOwned` | src/service/connect_bev.cpp:34-261 | any operation on the table with other keys and fresh connections leaves what the relay owns as it is |
| `RelayPull.OnlyTakenKeysDisturbed` | doc/session/relay_pull.h:25-174 | over every run, the only steps of the relay that change an entry or the timers of another connection are waking up stopped, and being stopped, without a connection of its own and after another user has taken its last key |
| `RelayPull.WakingFreesOther` | doc/session/relay_pull.h:170-174 | a stopped relay that wakes up then removes that entry and frees the other user's connection |
| `RelayPull.TakenKeyRun` | doc/session/relay_pull.h:25-174 | such a run: an attempt fails, the relay is stopped asleep, another connection gets the key of the failed one, and is freed |
| `RelayPull.SleepsBackOff` | doc/session/relay_pull.h:14-15 | the k-th sleep in a row since it last ran lasts min(5 * 2^k, 60) seconds, counting from 0 |
| `RelayLaws.WakesUp` | doc/session/relay_pull.h:42-53 | waking up doubles the delay up to 60 seconds; a stopped relay is over, another dials and sleeps again if that fails at once |
| `RelayLaws.ConnectionAnswered` | doc/session/relay_pull.h:56-72 | a connection that fails sends the relay to sleep; one that stands is renamed after its socket, and the relay waits for the reply |
| `RelayLaws.ReplyAnswered` | doc/session/relay_pull.h:86-108 | an empty or refused reply sends the relay to sleep; after an accepted one it asks for its registration, with the coding that the reply names |
| `RelayLaws.RegistrationRefused` | doc/session/relay_pull.h:110-118 | any registration reply but a positive one sends the relay to sleep, and its registration is not withdrawn |
| `RelayLaws.RegistrationGranted` | doc/session/relay_pull.h:110-128 | with nothing queued a positive reply makes the relay run, with the shortest delay again, or is the end of a stopped one |
| `RelayLaws.RunningReacts` | doc/session/relay_pull.h:138-167 | a running relay is disconnected, withdraws, drops what is queued and sleeps five seconds, if and only if its connection changes or a registration error arrives; other replies change nothing |
| `RelayLaws.RunningPublishes` | doc/session/relay_pull.h:131-136 | what data at a running relay leads to in either coding, the end of the relay and of the program included |
| `RelayLaws.StoppedExactly` | doc/session/relay_pull.h:25-36 | stopping ends a running relay; any other stays where it is, disarmed, withdrawn and with its channel closed |
| `RelayLaws.OthersAreQueued` | doc/session/relay_pull.h:56-155 | what does not answer the relay where it waits is queued and does nothing else; a disarmed connection reports nothing |
| `RelayLaws.DrainsInOrder` | doc/session/relay_pull.h:128-168 | draining takes the queue event by event: what ends the session ends the rest of the queue, a read publishes, and anything else passes by |
| `RelayOutcomes.WaitsForeverWithoutData` | doc/session/relay_pull.h:86-93 | over every run a relay keeps waiting for the handshake if and only if no data has arrived, whatever else happens, the loss of its connection included; so long it keeps that connection, and the table keeps it under the relay's key |
| `RelayOutcomes.StopReleasesExactly` | doc/session/relay_pull.h:25-36 | a stopped relay can finish, and so free its connection, if and only if it was not stopped while it waited for the connection or the handshake |
| `RelayOutcomes.RegistrationOutcome` | doc/session/relay_pull.h:110-168 | in either coding, what a positive answer leads to: the program ends if and only if one of the decoder calls for the queued reads throws; otherwise the relay finishes if and only if it was stopped or a call stops it, and runs if and only if it was not stopped, no call stops it and no queued event disconnects it; its key stays on record if and only if it runs, or the program ends before it was stopped |
| `RelayOutcomes.LoopEndsAt` | doc/session/relay_pull.h:127-168 | in either coding, where draining the queue takes the relay, whether it withdraws its registration, and what the decoder holds |
| `RelayOutcomes.TwoPiecesWhileRegistering` | doc/session/relay_pull.h:110-168 | two pieces that arrive while a chunked relay waits for its registration end it for good if and only if one of the two decoder calls stops and none throws |
| `RelayOutcomes.WholeChunksEndRelay` | doc/session/relay_pull.h:110-168 | so two pieces that together are whole, valid chunks always end it |
| `Registrations.RecordsExactly` | doc/session/relay_pull.h:25-174 | over every run, a key is on record if and only if it is that of the present registration, or its registration was refused while the relay was not stopped and neither a stop nor the end of a session came later under this key |
| `Registrations.SessionsAreWithdrawn` | doc/session/relay_pull.h:157-167 | every successful registration is withdrawn before the next sleep |
| `Registrations.FinishedIsWithdrawn` | doc/session/relay_pull.h:25-36 | over every run, a finished relay is on no record under its last key: stopped while it waits for the answer, it leaves nothing behind for it |
| `Registrations.RefusedStays` | doc/session/relay_pull.h:110-119 | a relay that is refused, tries again under another key, and is stopped asleep, finishes with the refused key on record |
| `RelayOutcomes.RunningForwards` | doc/session/relay_pull.h:131-136 | data that arrives at a running relay is published at once: all of it without chunking, and what one call of the decoder returns with chunking; a decoder that stops finishes the relay |
| `Reconnect.LeavingKeepsDecoder` | doc/session/relay_pull.h:157-167 | a session that ends by losing its connection leaves the buffer and the size of an unfinished chunk as they are |
| `Reconnect.LeftoversAreCarried` | doc/session/relay_pull.h:42-125 | however long it takes to get from one session to the next, and whatever happens meanwhile, the size stays, nothing is published, and the buffer is what was left and what arrived since, until a handshake takes everything |
| `Reconnect.HandshakeReadsLeftovers` | doc/session/carrier_base.cpp:300-316 | the next handshake is accepted if and only if what was carried over, followed by the reply, is a reply that is accepted |
| `Reconnect.SessionInheritsSize` | doc/session/relay_pull.h:110-168 | the next session starts with the size that the last one left, and with the decoder called once for each read queued by then |
| `Reconnect.PublishesExactlyIfAligned` | doc/session/relay_pull.h:127-136 | a chunked session that starts with an empty buffer publishes exactly its chunks, for every stream in harmless pieces, if and only if it starts with size 0 |
| `Reconnect.NextSessionExactlyIfLeftAligned` | doc/session/relay_pull.h:42-168 | from leaving one session to entering the next, over any number of attempts: if nothing arrives between the handshake and the start of the next chunked session, that publishes exactly its chunks, for every stream in harmless pieces, if and only if the last session ended between two chunks |
| `Reconnect.MidChunkIsReached` | doc/session/relay_pull.h:42-136 | a run from the start reaches a session that has received two of five announced bytes |
| `Reconnect.MidChunkDisconnect` | doc/session/relay_pull.h:42-168 | a session lost after two of five announced bytes: the next attempt fails whatever is answered, and the session after that publishes a chunk head as data |
| `CasterRegistries.Registry.CreateIn` | src/service/ntrip_global.h:98-110 | makes the carrier, stops and erases one that is already there, and stores the new one |
| `CasterRegistries.Registry.DestroyIn` | src/service/ntrip_global.h:112-121 | stops and erases the carrier under the key, if there is one |
| `CasterRegistries.Registry.OperateObject` | src/service/ntrip_global.h:128-144 | creates or destroys; pausing, updating and unknown operations change nothing |
| `CasterRegistries.ProcessQueue.PushAndActive` | src/service/process_queue.cpp:68-72 | a pushed request is last in the queue and the event is active |
| `CasterRegistries.ProcessQueue.Pop` | src/service/process_queue.cpp:46-51 | takes the first request |
| `CasterRegistries.NtripCaster.Dispatch` | src/service/ntrip_caster.cpp:373-420 | a request reaches the registry of its kind and no other; an unsupported kind changes nothing |
| `CasterRegistries.NtripCaster.RequestProcessCb` | src/service/ntrip_caster.cpp:570-583 | processes one request and activates the event again if there is more |
| `CasterRegistries.NtripCaster.RunUntilIdle` | src/service/ntrip_caster.cpp:570-583 | with no request from outside the event loop comes to rest within the weight of its state |
| `RequestQueue.StepWeighsLess` | src/service/ntrip_caster.cpp:570-583 | each run of the event lowers queue length plus registered carriers plus queued creations, although `stop()` queues new requests |
| `RequestQueue.DrainsWithinWeight` | src/service/ntrip_caster.cpp:570-583 | the queue is empty after at most that many runs |
| `RequestQueue.DrainedSurvivors` | src/service/ntrip_global.h:98-121 | when the queue has drained, a slot is occupied if and only if the queued requests say so: for kinds that report their stops, if and only if none of them stopped a carrier there |
| `RequestQueue.CreationSurvivesExactly` | src/service/ntrip_global.h:98-110 | a single queued creation leaves its key occupied if and only if no other carrier was there or the kind is a relay, because the old carrier's own request destroys the new one |
| `RequestQueue.RunsAreAccounted` | src/service/ntrip_global.h:98-121 | over every run no carrier leaves a registry without its `stop()` having run, none is registered twice, and the event is active if and only if a request is queued |
| `RequestQueue.NoStoppedCarrierLingers` | doc/session/carrier_base.cpp:222-238 | when the queue is empty no registered source, server, client or nearest carrier has been stopped |
| `RequestQueue.StoppedCarrierLeaves` | doc/session/carrier_base.cpp:222-238 | a carrier of kind source, server, client or nearest that stops itself appends exactly the request to destroy it and activates the event, and its slot is free once the queue has drained |
| `RequestQueue.StoppedRelayStays` | doc/session/relay_pull.h:25-36 | a relay that stops itself queues nothing and stays registered |
| `RequestQueue.EventExactly` | src/service/ntrip_caster.cpp:570-583 | one run of the event, kind by kind and operation by operation: which carrier is registered, stopped and made, what is queued behind the rest, and that the event is active exactly while something is queued |
| `CarrierLifetime.DanglesExactlyIfKeyDestroyed` | doc/session/carrier_base.cpp:207-215 | a registered carrier comes to point to a freed connection if and only if the event destroys a carrier with the same key |
| `CarrierLifetime.ReplacementDangles` | src/service/ntrip_global.h:98-110 | a carrier that replaces another one whose connection is still stored has its connection freed under it: at once if the old one was running, and otherwise when the old one gets its answer |
| `CarrierLifetime.NothingDangles` | src/service/ntrip_global.h:98-121 | over every run in which no carrier is made under the key of one that is still alive, no registered carrier ever points to a freed connection |
| `CarrierLifetime.NoRequestLeavesDangling` | src/service/ntrip_caster.cpp:570-583 | the same over every run of the request queue: no carrier in a registry points to a freed connection while no request makes one under the key of a carrier that is still alive |
| `CarrierLifetime.ErasedExactly` | doc/session/carrier_base.cpp:207-215 | an erased carrier loses its timers; if its coroutine still waits it lives on, and otherwise the connection under its key is deleted with it |
| `CarrierLifetime.MadeExactly` | src/service/ntrip_global.h:98-110 | a new carrier points to the connection its key led to before an old carrier was erased |

## Left out

- Overflow of 64-bit timestamps in the statistics.
- Buffers of 2^63 bytes or more, which no process can hold, and the failure to allocate a smaller one.
- EmptyChunks.ExactExactlyIfHarmless: fragmentations in which no delivery ends just behind a chunk of data that follows an empty one; there a delivery that eats bytes may still come out right by accident, as `RightByAccident` shows, and only `HarmlessIsExact`, `HarmfulStopsOrEats` and `FragmentsDecode` apply.
- RequestRoundTrip.RequestUnderstood: request lines and encoded credentials of more than 255 bytes and header lines of more than 1024 are excluded, because they exceed the parser's fixed buffers; base64 is a pair of functions with the round trip that RFC 4648 promises; how a position is scanned from a GGA sentence is a parameter.
- Handshake.ReplyIsUnderstood: the program's name and the date come in as parameters, and must not contain the word that the relay searches for.
- RelayPull.StepIsSound: does not record that the request has been sent; its text is the subject of RequestRoundTrip.
- RelayPull.RunsAreSound: other users of the table keep off the key of the relay's connection and hand over newly allocated connections; that a stop also clears the callbacks of the connection under its key is part of this model only for the relay's own.
- Registrations.RecordsExactly: what the core is asked, not what it does; it refuses some requests at once and without a record.
- CasterRegistries.NtripCaster.RunUntilIdle: that starting a carrier does not stop it at once is built in, as replies of the core and of the authentication arrive later.
- CarrierLifetime.NothingDangles: other users of the table keep off the keys of registered carriers; relays, which connect under keys of their own, are the subject of RelayPull.
- A race between two threads on one queue: all callbacks run on one event loop.
- `std::sort` may order equal keys in any way, so only the keys of equal rows are determined.
- The value of the `last_seen` text, the JSON form of reports, and failures of Redis: the store is a map of sequences.
- In the core the node events are written to hashes, while the handler reads lists; the handler is modelled as it reads.
- Iterators of `_connect_map` that a rehash during `set_key` and `recalculate_key` invalidates.
- Calendar functions: a day is given by its two timestamps, and the daily report always has 24 buckets.
- `relay_push`, `client_ntrip`, `client_near` and `source_ntrip`: their coroutines repeat the modelled machinery.
- The source table, the server-sent events, configuration, users, tokens, monitoring and the web interface.
- The cores behind `CASTER` and `AUTH`: their replies are arbitrary callbacks.
