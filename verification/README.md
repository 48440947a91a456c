# A verified model of ZeroProxy

ZeroProxy serves foreign sites from one origin: a Service Worker intercepts every request of a page, carries it
over a transport of its own, and plays the part of the browser's network stack (cookies, redirects, CORS,
WebSockets), while a relay and a TLS stack do the rest. This project models the stateful cores of that system in
Dafny and proves what each of them keeps over every run, every interleaving or every input.

| file | what it models |
|---|---|
| `Domains.dfy` | host names, labels, registrable domains, the public-suffix rule |
| `CookieStore.dfy`, `CookieList.dfy`, `CookieJar.dfy`, `CookieRuns.dfy` | the cookie jar: parsing and lookup, the list and the map it refines, the object updated in place, every run of it with storage |
| `Fetch.dfy`, `HopChain.dfy`, `HopMachine.dfy` | one hop of a fetch, whole redirect chains, all fetches interleaved over one preflight cache |
| `Recency.dfy`, `RewriteCache.dfy`, `ScriptRewrite.dfy` | least-recently-used order, the two-cap cache of rewritten scripts, and script responses served through it |
| `ChunkBuffer.dfy`, `TlsRecords.dfy`, `TlsSend.dfy` | the byte queue of the TLS stack, its records and which of them survive a key that runs out, and the sending half of a connection |
| `SyncHub.dfy`, `SyncProtocol.dfy` | the rendezvous hub of synchronous requests, and the protocol of pages, polls, results and timeouts over it |
| `CompressionCache.dfy` | the certificate compression cache with its two critical sections |
| `StreamBridge.dfy`, `WorkerSocket.dfy` | the two ends of a WebSocket, with callbacks that re-enter them |
| `EventStream.dfy` | the incremental event-stream parser, and the line rule of the HTML Standard beside it |
| `Base64Url.dfy`, `ShareLink.dfy` | base64url and sealed share links |
| `Octets.dfy`, `Prelude.dfy` | bytes laid end to end; options, lengths, positions, filters, reversal |

Code that updates an object in place is a class whose methods are tied to functions of the old state; the laws are
then lemmas about those functions, and folds over event sequences (`Run`) carry them to whole runs. Clocks, the
network, kernel callbacks, user handlers, random numbers, the rewriter and the cryptographic primitives are
parameters or events chosen freely by the environment.

## Where the code and its documents differ

The model follows the code. Each of the following is proved with the condition under which it shows.

- A renewed cookie keeps its creation time and Max-Age counts from there; RFC 6265 section 5.2.2 counts it from the
  arrival of the line (`CookieList.MaxAgeCountsFromCreation`). A purge between two lines is therefore visible to
  the writer (`CookieList.PurgeVisibleToWriter`).
- A reader treats a cookie as live at its very expiry instant, storage already drops it
  (`CookieList.LoadVisibleAtSameInstant`).
- A Domain longer than its registrable domain counts as a public suffix, so `Domain=www.example.com` leaves the
  cookie on its host; what the rule lets through is exactly addresses and registrable domains
  (`Domains.AcceptedDomainShape`).
- Numbers escape the public-suffix rule. Among the hosts a URL can have, cookies stay on their site exactly when the
  last label is not a number (`Domains.ContainedIffNonNumeric`): an IPv4 address may use its last number as Domain and
  reaches every address ending in it, and so does a name that ends in a number and two dots. For all other
  hosts containment holds over every run (`CookieRuns.SiteContainment`).
- A send reports the length it took even when fragments were given up because the key is used up
  (`TlsSend.SendSide.SendAppData`); a caller can tell beforehand (`TlsRecords.NoDropsIff`). Before TLS 1.3 the data
  then have a hole: the fragment at the key's limit is given up, the closing alert is sealed in its place, and the next
  fragment is sealed again behind that alert. If the alert had been sent before, nothing more is sealed
  (`TlsRecords.HoleAtTheLimit`). In TLS 1.3 only the hard limit cuts, and what is sealed is a prefix
  (`TlsRecords.FirstSurvive`). Alerts are meant to be always
  sendable, but sealing one at the hard limit of the sequence numbers panics, and only there
  (`TlsSend.SendSide.SendAlert`).
- A request for new keys that is itself sealed at the key's limit asks for new keys once more
  (`TlsSend.SendSide.MaybeRefreshKeys`).
- Requests that timed out stay in their host's queue: with an empty table a request is refused exactly when the hub is
  closed or 64 of its host's jobs were never handed out (`SyncProtocol.RefusedWithEmptyTableIff`).
- Results are matched by id and host, but a handler that gives up deletes whatever is under its id. So a result is
  not misrouted as long as parked requests share no pair of id and host (`SyncProtocol.ResultReachesItsRequest`), and
  any two that share both can be answered with each other's (`SyncProtocol.ReusedIdGetsAnothersResult`). It is not
  lost as long as they share no id, at whatever hosts (`SyncProtocol.WaitingIsReachable`, `SyncProtocol.ResultArrives`),
  and for any two that share an id there is a run that strands the second (`SyncProtocol.SharedIdStrands`), which is
  then never answered (`SyncProtocol.StrandedForever`).
- Two compressions that miss together leave a key twice in the cache (`CompressionCache.ConcurrentMissesDuplicate`);
  an insert keeps keys unique exactly when no entry it keeps has the key (`CompressionCache.InsertUnique`).
- `close()` on an event source takes effect only at the next chunk. Later events of the chunk are still dispatched
  (`EventStream.CloseStopsAtOnceIff`), and the chunking becomes visible (`EventStream.CloseMakesChunkingVisible`).
- Lines end at LF only, where the HTML Standard also ends them at a lone CR (`EventStream.StandardLinesIff`), and an id
  may contain NUL, which the Standard ignores (`EventStream.EventsAgreeIff`).
- base64url decoding accepts stray bits in the last character, so re-encoding gives the text back exactly when there
  are none (`Base64Url.EncodeDecode`).

## Model

| member | source | states |
|---|---|---|
| `Domains.JoinSplit` | web/sw.js:2784-2790 | joining the labels of a name gives the name back, and no label holds a dot |
| `Domains.SplitConcat` | web/sw.js:2784-2790 | labels of `a.b` are the labels of `a` followed by those of `b` |
| `Domains.SplitJoin` | web/sw.js:2784-2790 | splitting undoes joining for every list of dot-free labels |
| `Domains.RegistrableDomainLength` | web/sw.js:2781-2790 | a registrable domain is never longer than its host |
| `Domains.AcceptedDomainShape` | web/sw.js:2792-2800 | a name passes the public-suffix rule if and only if it is an address, or is canonical and has two labels, or three under a country suffix; then it is its own registrable domain |
| `Domains.MatchedHostTail` | web/sw.js:2866-2870 | a host a Domain matches consists of some labels followed by the labels of that Domain |
| `Domains.MatchedHostSite` | web/sw.js:2777-2800 | every host an accepted, non-numeric Domain matches has exactly that Domain as its registrable domain |
| `Domains.NonNumericHostIsContained` | web/sw.js:2905-2910 | whatever Domain a host with a non-numeric last label is allowed, every host of a URL it reaches, IPv4 and IPv6 addresses included, is on the site of that host |
| `Domains.NamesReachNoBrackets` | web/sw.js:2866-2870 | a cookie of a named host reaches no IPv6 address |
| `Domains.BracketsReachThemselves` | web/sw.js:2866-2870 | a cookie of an IPv6 address reaches that address only |
| `Domains.QuadIsNotContained` | web/sw.js:2795-2795 | the last number of an IPv4 address is an accepted Domain and reaches another address |
| `Domains.NumericNameIsNotContained` | web/sw.js:2793-2795 | so does the last label of a name that ends in a number and two dots |
| `Domains.ContainedIffNonNumeric` | web/sw.js:2777-2800 | for every host a URL can have, site containment holds if and only if its last label is not a number |
| `CookieStore.AttributesKeep` | web/sw.js:2901-2922 | over any list of attributes name, value and creation stay, and the last acceptable Domain alone decides domain and host-only |
| `CookieStore.ParseDomain` | web/sw.js:2884-2924 | a line parses exactly when the URL and the name are valid, and the record's domain is the host or a Domain that host may use |
| `CookieStore.ExpiryIsMonotone` | web/sw.js:2877-2883 | once expired, always expired |
| `CookieStore.HeaderSortProperties` | web/sw.js:2991-2991 | header order is sorted by path length then age, a permutation, and stable |
| `CookieList.PutRefines` | web/sw.js:2961-2972 | storing keeps one record per key and is a map update that keeps the creation time under the key |
| `CookieList.RemoveRefines` | web/sw.js:2945-2955 | deleting keeps one record per key and is removal of that key from the map |
| `CookieList.FilterRefines` | web/sw.js:2981-2983 | dropping records by any test keeps one record per key and is the same test on the map |
| `CookieList.SetRefines` | web/sw.js:2935-2973 | a Set-Cookie line is one map update or one removal and touches no other key |
| `CookieList.MergeRefines` | web/sw.js:3013-3032 | merging keeps every live record, adds only unexpired stored ones under new keys, and misses none of them |
| `CookieList.AnswerRefines` | web/sw.js:2974-2993 | a lookup returns exactly the live matching cookies of the map, each once, in header order |
| `CookieList.PurgeInvisible` | web/sw.js:2981-2992 | purging at one instant changes no answer at that instant or later |
| `CookieList.LoadInvisible` | web/sw.js:2563-2571 | a snapshot loaded at t answers every query after t as the jar it was taken from |
| `CookieList.UpkeepInvisible` | web/sw.js:2974-3012 | however often the jar was read, saved and reloaded before t, a lookup at t answers as if none of it had happened |
| `CookieList.MergeInvisible` | web/sw.js:3000-3032 | so does a snapshot merged into an empty jar |
| `CookieList.LoadVisibleAtSameInstant` | web/sw.js:2563-2571 | at the instant of loading itself the answers agree for every query if and only if no visible record is due at that millisecond |
| `CookieList.MaxAgeCountsFromCreation` | web/sw.js:2961-2969 | a Max-Age cookie lives to the promised instant if and only if its key is new or was created at this moment |
| `CookieList.PurgeVisibleToWriter` | web/sw.js:2983-2983 | the exact condition under which a purge before a write changes what is stored |
| `CookieJar.ParseLine` | web/sw.js:2884-2924 | the attribute loop computes the specified record, whose domain the host may use |
| `CookieJar.FoldAttributes` | web/sw.js:2901-2922 | the loop over the attributes is the left fold of their effects |
| `CookieJar.Jar.Delete` | web/sw.js:2945-2955 | the record under the key is gone, others stay in place, and the jar is dirty only if there was one |
| `CookieJar.Jar.Store` | web/sw.js:2961-2972 | the record replaces the one of its key in place or is appended, and is returned as stored |
| `CookieJar.Jar.SetCookieLine` | web/sw.js:2935-2973 | the new list is the specified one, the change reported describes the record as stored, and rejected lines change nothing |
| `CookieJar.Jar.CookiesForUrl` | web/sw.js:2974-2993 | the lookup answers as specified and leaves exactly the unexpired records |
| `CookieJar.Jar.Scan` | web/sw.js:2980-2990 | the backward loop that splices while it scans removes exactly the expired records and collects exactly the matching live ones |
| `CookieJar.Jar.TakeSnapshot` | web/sw.js:3000-3012 | a snapshot is the unexpired records in order |
| `CookieJar.Jar.MergeRestored` | web/sw.js:3013-3032 | the merge loop adds what the specification adds and keeps one record per key |
| `CookieJar.Jar.ConsumeDirty` | web/sw.js:3033-3033 | reports and clears the dirty flag |
| `CookieRuns.RunsStayKeyed` | web/sw.js:2935-3032 | in every state reachable by sets, lookups, saves, merges and restarts no two records share name, domain and path |
| `CookieRuns.RunsStore` | web/sw.js:2935-3032 | every record, live or saved, was stored by some Set of the run |
| `CookieRuns.RecordStaysOnSite` | web/sw.js:2866-2870 | a stored record matches only lookups on the site of the host that set it, for every host a URL can have but those ending in a number |
| `CookieRuns.SiteContainment` | web/sw.js:2974-2993 | over every run, a cookie returned to a lookup was set by a host of the same site, for every host a URL can have but those ending in a number |
| `CookieRuns.DefaultPathMatches` | web/sw.js:2860-2865 | a cookie without a Path covers the path that set it, if and only if that path starts with a slash |
| `CookieRuns.SetThenLookup` | web/sw.js:2935-2993 | straight after a line was stored, the URL that set it gets the record back if and only if it is live, its path covers the URL, Secure permits, and there is a host |
| `HopChain.ContinueStep` | web/sw.js:1589-1650 | what one continuation does to taint, origin taint, depth and the reissue flag, and what it leaves alone |
| `HopChain.ContinueRequest` | web/sw.js:1626-1631 | one continuation keeps method and body or makes it a bodyless GET, only drops headers, and drops Authorization across origins |
| `HopChain.TaintExact` | web/sw.js:1407-1422 | at every request of every chain: tainted iff some request so far went foreign, origin tainted iff some earlier one left a foreign origin for another |
| `HopChain.CorsCheckedAfterTaint` | web/sw.js:1608-1612 | after a foreign request no response is delivered or followed unless it passed the CORS check for the origin then carried, which is null exactly after leaving a foreign origin |
| `HopChain.ChainLength` | web/sw.js:1589-1622 | depth plus reissue equals the position in the chain, so no chain exceeds 22 requests |
| `HopChain.MethodAndBody` | web/sw.js:1626-1649 | along every chain method and body are the originals, or GET without body and content headers; headers are never added or changed |
| `HopChain.MethodChangesOnce` | web/zp-core.js:529-533 | after the method changed, every later request has the same method, no body and no content headers |
| `HopChain.MethodExact` | web/zp-core.js:529-533 | the method is GET instead of the original if and only if some followed redirect demanded it under the rule of the Fetch Standard |
| `HopChain.HeadersExact` | web/sw.js:1627-1631 | the headers of every request are exactly the original ones, less the content headers once the method changed, less Authorization once the origin did |
| `HopChain.AuthorizationStaysHome` | web/sw.js:1631-1631 | a request carries Authorization only if all requests so far went to one origin |
| `HopMachine.PreflightCache.Get` | web/sw.js:3120-3120 | finds the entry stored under the key, if any |
| `HopMachine.PreflightCache.Put` | web/sw.js:3141-3145 | stores after dropping the oldest entry of a full cache, and keeps the cap of 256 |
| `HopMachine.CacheKeyInjective` | web/sw.js:3118-3118 | the joined key determines tab, origin, URL and credentials mode |
| `HopMachine.RunsAreChains` | web/sw.js:1589-1649 | in every interleaving each task's requests and responses form a chain |
| `HopMachine.DeliveredWasChecked` | web/sw.js:1608-1612 | in every interleaving, a cors fetch delivered after going foreign had its last response checked against the right origin |
| `HopMachine.PreflightSafety` | web/sw.js:1412-1421 | in every interleaving, a request that needs a preflight reaches the kernel only with a passed one for its tab, origin, URL and credentials covering method and headers, from this hop or an unexpired entry; the cache stays within its cap |
| `HopMachine.AnswerSpends` | web/sw.js:1645-1649 | every kernel answer strictly lowers what a task can still ask for |
| `HopMachine.TasksEnd` | web/sw.js:1589-1622 | whatever the servers answer, a task consumes at most 44 kernel answers |
| `RewriteCache.EvictSuffix` | web/sw.js:137-143 | eviction keeps a nonempty suffix that meets both caps |
| `RewriteCache.EvictMinimal` | web/sw.js:137-143 | eviction drops no more than it must: every longer suffix breaks a cap |
| `RewriteCache.VictimsAreLeastRecent` | web/sw.js:127-144 | every victim was last read or written before every survivor |
| `RewriteCache.Cache.Get` | web/sw.js:119-125 | a hit returns the stored code and moves it to the recent end; counter, caps and recency order hold |
| `RewriteCache.Cache.Set` | web/sw.js:127-144 | both caps hold afterwards, the counter equals the sum of lengths, and the entry just stored is still there, most recent |
| `RewriteCache.Cache.Place` | web/sw.js:130-136 | an entry takes the recent end in place of the older one of its key, with the counter adjusted |
| `RewriteCache.Cache.EvictOldest` | web/sw.js:137-143 | the loop ends with both caps met and never evicts the newest entry |
| `ScriptRewrite.PayloadInjective` | web/sw.js:107-111 | two requests share a payload only if version, kind, address and source are all equal |
| `ScriptRewrite.HitIsRewrite` | web/sw.js:1783-1792 | a hit is the rewriter's output for the very script asked for, and the rewriter is loaded by then |
| `ScriptRewrite.RunsAlike` | web/sw.js:585-618 | in step with a worker that has no cache, nothing is cached before the rewriter is loaded and everything cached is a rewrite |
| `ScriptRewrite.CacheTransparent` | web/sw.js:1778-1827 | over every sequence of requests, loads and completions: what is answered without the cache is answered with it and alike, and what is answered with it gets that very body without it |
| `ChunkBuffer.ChunkVecBuffer.Append` | third_party-rustls-fork/src/vecbuf.rs:75-87 | contents grow by exactly the bytes |
| `ChunkBuffer.ChunkVecBuffer.Pop` | third_party-rustls-fork/src/vecbuf.rs:92-102 | the popped bytes followed by what remains are the old contents |
| `ChunkBuffer.ChunkVecBuffer.Len` | third_party-rustls-fork/src/vecbuf.rs:55-60 | the length of the contents |
| `ChunkBuffer.ChunkVecBuffer.ApplyLimit` | third_party-rustls-fork/src/vecbuf.rs:65-72 | how much of an append fits under the limit: all of it, or the room left, or nothing |
| `ChunkBuffer.ChunkVecBuffer.AppendLimitedCopy` | third_party-rustls-fork/src/vecbuf.rs:135-139 | contents grow by exactly the prefix that fits under the limit |
| `ChunkBuffer.ChunkVecBuffer.Consume` | third_party-rustls-fork/src/vecbuf.rs:169-188 | contents lose exactly the bytes consumed, across chunk boundaries |
| `ChunkBuffer.ChunkVecBuffer.WriteTo` | third_party-rustls-fork/src/vecbuf.rs:191-220 | what a writer takes of the first 64 chunks leaves the front; a report beyond what was offered is an error and consumes everything offered |
| `TlsRecords.FragmentsRejoin` | third_party-rustls-fork/src/msgs/fragmenter.rs:42-98 | fragments rejoin to the payload, and none is empty |
| `TlsRecords.FragmentsAreFull` | third_party-rustls-fork/src/msgs/fragmenter.rs:86-98 | no fragment is too long, and all but the last are full |
| `TlsRecords.NoDropsIff` | third_party-rustls-fork/src/record_layer.rs:199-205 | the next n data records are all sealed if and only if they stay below the hard limit and, before TLS 1.3, off the key's own limit |
| `TlsRecords.AllSurviveIff` | third_party-rustls-fork/src/common_state.rs:347-388 | of any fragments due, all are sealed if and only if none is given up, and otherwise strictly fewer are; when all are, as many sequence numbers are used |
| `TlsRecords.FirstSurvive` | third_party-rustls-fork/src/common_state.rs:359-384 | in TLS 1.3, and before it once past the key's limit, exactly the first fragments survive, as many as fit below the hard limit |
| `TlsRecords.HoleAtTheLimit` | third_party-rustls-fork/src/common_state.rs:359-384 | before TLS 1.3, fragments that reach the key's limit survive up to it; the one at the limit does not; those behind it survive, up to the hard limit, if and only if the closing alert is sealed in its place |
| `TlsRecords.AllFragmentsRejoin` | third_party-rustls-fork/src/common_state.rs:425-433 | the fragments of all buffered chunks rejoin to the buffered data |
| `TlsRecords.NoncesNeverRepeat` | third_party-rustls-fork/src/record_layer.rs:107-131 | no two sealed records share key epoch and sequence number: later ones use later nonces |
| `TlsSend.SendSide.constructor` | third_party-rustls-fork/src/common_state.rs:67-100 | a new connection satisfies the invariants, with nothing sealed, sent or accepted |
| `TlsSend.SendSide.PerhapsWriteKeyUpdate` | third_party-rustls-fork/src/common_state.rs:441-445 | a waiting notice moves to the queue without changing what is pending |
| `TlsSend.SendSide.QueueTlsMessage` | third_party-rustls-fork/src/common_state.rs:436-439 | new bytes go behind everything made before, waiting notice included |
| `TlsSend.SendSide.EncryptOutgoing` | third_party-rustls-fork/src/record_layer.rs:107-118 | sealing uses the next sequence number and keeps nonces increasing |
| `TlsSend.SendSide.SealAndQueue` | third_party-rustls-fork/src/common_state.rs:386-387 | a sealed record joins the queue in the order it was made, and no record made before it is forgotten |
| `TlsSend.SendSide.QueueClear` | third_party-rustls-fork/src/common_state.rs:470-477 | so does a record sent before encryption starts, and it carries no application data |
| `TlsSend.SendSide.SendAlert` | third_party-rustls-fork/src/common_state.rs:347-353 | an alert is always made, in the clear or sealed, and in order; it panics if and only if records are sealed and the hard limit is reached, and then nothing is made |
| `TlsSend.SendSide.SendCloseNotify` | third_party-rustls-fork/src/common_state.rs:581-589 | at most one closing alert, queued in order; it panics exactly where sealing it does, with the flags already set |
| `TlsSend.SendSide.SendSingleFragment` | third_party-rustls-fork/src/common_state.rs:347-388 | a fragment is sealed under the next nonce and queued in order, or given up exactly when the key is used up; what sequence number comes next and whether the closing alert is out; new keys are wished for exactly at the key's limit |
| `TlsSend.SendSide.SendAppData` | third_party-rustls-fork/src/common_state.rs:320-345 | the length taken is what the limit admits; the data sealed are exactly those of the fragments that survive, in order, whatever length is reported, and the whole of it when none is given up |
| `TlsSend.SendSide.SendFragments` | third_party-rustls-fork/src/common_state.rs:340-342 | the loop over the fragments seals exactly the survivors, in order |
| `TlsSend.SendSide.SendDataFragment` | third_party-rustls-fork/src/common_state.rs:340-342 | one fragment of it: its data are sealed, or nothing is, exactly when the key is used up |
| `TlsSend.SendSide.BufferPlaintext` | third_party-rustls-fork/src/common_state.rs:737-780 | plaintext is accepted as the prefix the limit admits and conserved: sealed or still buffered, in order, unless something was given up, and then exactly the surviving fragments are sealed |
| `TlsSend.SendSide.HoldPlaintext` | third_party-rustls-fork/src/common_state.rs:769-777 | before traffic starts the prefix that fits is buffered behind earlier plaintext |
| `TlsSend.SendSide.SendPlaintext` | third_party-rustls-fork/src/common_state.rs:390-401 | after traffic starts the surviving fragments of the prefix that fits are sealed, and whether that is all of it is recorded |
| `TlsSend.SendSide.StartOutgoingTraffic` | third_party-rustls-fork/src/common_state.rs:405-415 | everything buffered during the handshake is sealed, in order, before anything later, less exactly the fragments given up |
| `TlsSend.SendSide.FlushPlaintext` | third_party-rustls-fork/src/common_state.rs:425-433 | the loop empties the buffer and seals exactly the surviving fragments of all chunks, which is everything when none is given up |
| `TlsSend.SendSide.SendHeld` | third_party-rustls-fork/src/common_state.rs:430-432 | one step of it: the oldest chunk leaves the buffer and its surviving fragments are sealed |
| `TlsSend.SendSide.SetEncrypter` | third_party-rustls-fork/src/record_layer.rs:122-163 | a new epoch starts at zero, its limit is capped, and all invariants carry over |
| `TlsSend.SendSide.HandleKeyUpdate` | third_party-rustls-fork/src/common_state.rs:698-722 | a requested update seals one notice under the old key and parks it; a second request before it leaves changes nothing; it panics if and only if the notice cannot be sealed |
| `TlsSend.SendSide.MaybeRefreshKeys` | third_party-rustls-fork/src/conn.rs:1255-1270 | our own update seals the request under the old key before the key changes, unless that key is exhausted; the wish stays exactly when the request was sealed at the limit |
| `TlsSend.SendSide.RequestUpdate` | third_party-rustls-fork/src/common_state.rs:310-318 | the request is one sealed record behind everything made before, or nothing at the hard limit |
| `TlsSend.SendSide.WriteTls` | third_party-rustls-fork/src/vecbuf.rs:191-220 | what the writer takes leaves the front of the queue, so records leave in the order they were made |
| `TlsSend.SendSide.RequiredSize` | third_party-rustls-fork/src/common_state.rs:605-614 | the exact room for the queue and the fragments to come |
| `TlsSend.SendSide.WriteQueued` | third_party-rustls-fork/src/common_state.rs:630-638 | the queue is copied in order and the rest of the buffer is untouched |
| `TlsSend.SendSide.DrainQueue` | third_party-rustls-fork/src/common_state.rs:632-638 | what was drained has left in the order it was made |
| `TlsSend.SendSide.WriteSealed` | third_party-rustls-fork/src/common_state.rs:640-649 | fragments are sealed straight behind it, in bounds, in order |
| `TlsSend.SendSide.WriteOneSealed` | third_party-rustls-fork/src/common_state.rs:640-649 | one fragment of it, filling exactly its announced size |
| `TlsSend.SendSide.WriteFragments` | third_party-rustls-fork/src/common_state.rs:625-652 | exactly the required size is written, everything queued first |
| `TlsSend.SendSide.LookAhead` | third_party-rustls-fork/src/common_state.rs:253-276 | succeeds if and only if every fragment can be sealed, and then changes nothing that was made or queued; new keys are wished for exactly when TLS 1.3 would reach the key's limit |
| `TlsSend.SendSide.WritePlaintext` | third_party-rustls-fork/src/common_state.rs:236-291 | either nothing of the payload is taken, with the exact size still needed, or all of it leaves behind the queue, filling exactly that size; new keys are wished for exactly when the payload reaches the key's limit in TLS 1.3 |
| `TlsSend.SendSide.WriteWhole` | third_party-rustls-fork/src/common_state.rs:278-290 | the same for a payload known to be sealable |
| `TlsSend.SendSide.EagerSendCloseNotify` | third_party-rustls-fork/src/common_state.rs:591-598 | the closing alert is sent and the queue leaves in order, or the room the whole queue needs is reported, or sealing the alert panics, exactly at the hard limit |
| `TlsSend.SendSide.WriteOutQueue` | third_party-rustls-fork/src/common_state.rs:596-597 | the queue leaves in order, or stays and the room it needs is reported |
| `SyncHub.Hub.QueueFor` | internal/httphost/syncfetch.go:99-109 | the host's queue, created empty on first use |
| `SyncHub.Hub.Close` | internal/httphost/syncfetch.go:111-118 | the hub is closed, and stays so when closed again |
| `SyncHub.Hub.Enqueue` | internal/httphost/syncfetch.go:120-146 | parks or refuses as specified, and a refusal leaves table and queues as they were |
| `SyncHub.Hub.TakeFor` | internal/httphost/syncfetch.go:148-158 | hands out a job only to its own host, and removes it |
| `SyncHub.Hub.Take` | internal/httphost/syncfetch.go:160-166 | removes whatever is under the id |
| `SyncHub.Hub.Drain` | internal/httphost/syncfetch.go:309-324 | a poll takes a nonempty prefix of its host's queue, at most a batch, and stops short of a batch only when the queue is empty |
| `SyncProtocol.RunsKeep` | internal/httphost/syncfetch.go:231-358 | over every interleaving, with results posted under any id from any host: the table stays bounded and holds no job of a returned handler; each job goes to at most one poll, of its host, first in first out; each job gets at most one result, from its host |
| `SyncProtocol.AtMostOnePoll` | internal/httphost/syncfetch.go:309-324 | in every run no job is handed out twice, and each goes to the host whose page parked it |
| `SyncProtocol.FirstInFirstOut` | internal/httphost/syncfetch.go:139-146 | in every run, per host, what was handed out followed by what waits is what was parked, in order |
| `SyncProtocol.AtMostOneResult` | internal/httphost/syncfetch.go:348-356 | in every run, whoever posts, no job gets two results, and each was posted from the host of its job |
| `SyncProtocol.ReturnedIsGone` | internal/httphost/syncfetch.go:240-269 | in every run a returned handler has no job in the table, which never holds more than 64 |
| `SyncProtocol.PostSendKeeps` | internal/httphost/syncfetch.go:348-356 | the result channel is free whenever a result is sent, so none is dropped |
| `SyncProtocol.HeadIsNew` | internal/httphost/syncfetch.go:309-319 | the head of a queue was never handed out before |
| `SyncProtocol.ResultReachesItsRequest` | internal/httphost/syncfetch.go:334-358 | not misrouted: if parked requests share no pair of id and host, a result of a job reaches no other request than its own |
| `SyncProtocol.ReusedIdGetsAnothersResult` | internal/httphost/syncfetch.go:261-263 | for any two requests that share id and host there is a run in which the second is answered with the result of the first |
| `SyncProtocol.RunsLoseNothing` | internal/httphost/syncfetch.go:231-358 | if parked requests share no id, every run keeps the invariant that unreturned handlers own a parked job and waiting ones can be reached |
| `SyncProtocol.WaitingIsReachable` | internal/httphost/syncfetch.go:240-269 | not lost: if parked requests share no id, in every run each waiting request is in the table under its id or has a result on the way |
| `SyncProtocol.ResultArrives` | internal/httphost/syncfetch.go:334-358 | then the first result posted for a waiting, handed-out request from its host becomes what its handler returns with |
| `SyncProtocol.SharedIdStrands` | internal/httphost/syncfetch.go:160-166 | for any two requests that share an id, at any hosts, there is a run after which the second waits, out of the table and with no result on the way |
| `SyncProtocol.StrandedForever` | internal/httphost/syncfetch.go:240-269 | such a request is never answered, whatever happens afterwards |
| `SyncProtocol.AbandonedJobsFillTheQueue` | internal/httphost/syncfetch.go:139-144 | for every length up to the cap a run leaves an empty table and a queue that long, so at the cap every request is refused |
| `SyncProtocol.RefusedWithEmptyTableIff` | internal/httphost/syncfetch.go:120-146 | in every run with an empty table a request is refused if and only if the hub is closed or 64 jobs of its host were parked and never handed out |
| `CompressionCache.Cache.Probe` | third_party-rustls-fork/src/compress.rs:351-366 | a hit is the entry of that algorithm and encoding and becomes the most recent |
| `CompressionCache.Cache.Insert` | third_party-rustls-fork/src/compress.rs:381-389 | the bound holds, and a new key keeps recency order |
| `CompressionCache.Cache.CompressionFor` | third_party-rustls-fork/src/compress.rs:335-390 | with nobody in between: the answer is for this key, keys stay unique in recency order, failures store nothing |
| `CompressionCache.InsertOrdered` | third_party-rustls-fork/src/compress.rs:385-388 | the entry dropped for a new one is the least recently used |
| `CompressionCache.MoveToEnd` | third_party-rustls-fork/src/compress.rs:360-362 | moving a hit to the back keeps the entries in order of last use |
| `CompressionCache.RunsAreRight` | third_party-rustls-fork/src/compress.rs:335-413 | over every interleaving of probes, inserts, failures and uncached requests the bound holds and every answer is a compression of exactly the message asked for |
| `CompressionCache.InsertUnique` | third_party-rustls-fork/src/compress.rs:385-388 | an insert keeps keys unique if and only if no entry it keeps has the key |
| `CompressionCache.ConcurrentMissesDuplicate` | third_party-rustls-fork/src/compress.rs:366-388 | for every key, two misses before either insert leave it twice |
| `StreamBridge.Bridge.Finish` | web/sw.js:2372-2386 | the one end of a stream: deadline cleared, table left, one close delivered last; a second call does nothing |
| `StreamBridge.Bridge.Deliver` | web/sw.js:2418-2422 | a callback shows the page exactly its message, and nothing once the stream is finished |
| `StreamBridge.Bridge.Call` | web/sw.js:2418-2422 | whatever callbacks a kernel call makes, the page sees one message each up to and including the first close |
| `StreamBridge.Bridge.AbortStream` | web/sw.js:2387-2392 | an abort always ends in exactly one close, after a notice of any exception |
| `StreamBridge.Bridge.Open` | web/sw.js:2393-2430 | the page is answered exactly once, accepted iff nothing failed, and a failure leaves nothing registered or armed |
| `StreamBridge.Bridge.Forward` | web/sw.js:2404-2416 | a request passed to the kernel shows its callbacks, and an exception turns into a notice and an abort |
| `StreamBridge.Bridge.OnPortMessage` | web/sw.js:2401-2417 | what each request from the page makes it see, including exceptions; a close handshake is always guarded by a deadline and started once |
| `StreamBridge.Bridge.OnDeadline` | web/sw.js:2409-2409 | the deadline finishes the stream |
| `WorkerSocket.Socket.Fire` | web/worker-prelude.js:1075-1079 | handlers may re-enter to any depth; state only moves forward and nothing follows the close event |
| `WorkerSocket.Socket.CloseSocket` | web/worker-prelude.js:1100-1114 | one closing handshake at most, its guard armed before anything is posted |
| `WorkerSocket.Socket.SendData` | web/worker-prelude.js:1086-1099 | throws exactly while connecting or when the port throws; bytes are counted and go out only while open, those of a blob once read |
| `WorkerSocket.Socket.OnBlobRead` | web/worker-prelude.js:1091-1097 | bytes of a blob go out if the socket is still open and are taken back otherwise; a failure to read or post closes the socket |
| `WorkerSocket.Socket.Finish` | web/worker-prelude.js:1010-1016 | the only source of the close event, which fires once and last |
| `WorkerSocket.Socket.Fail` | web/worker-prelude.js:1018-1023 | an error event first, then the socket is closed, by the handler or by the failure |
| `WorkerSocket.Socket.OnReply` | web/worker-prelude.js:1038-1073 | a reply opens a connecting socket, fails it, or is discarded when the page closed meanwhile; an exception while discarding its port fails the socket |
| `WorkerSocket.Socket.OnRejected` | web/worker-prelude.js:1073-1073 | a rejected open closes the socket |
| `WorkerSocket.Socket.OnData` | web/worker-prelude.js:1047-1061 | a message event fires unless the socket is closed |
| `WorkerSocket.Socket.OnError` | web/worker-prelude.js:1062-1063 | an error from the bridge fails the socket |
| `WorkerSocket.Socket.OnPeerClose` | web/worker-prelude.js:1064-1065 | the peer's close is the last event, clean unless its code is 1006 |
| `WorkerSocket.Socket.OnDrained` | web/worker-prelude.js:1066-1067 | the buffered amount falls by what drained and never below zero |
| `WorkerSocket.Socket.OnGuard` | web/worker-prelude.js:1106-1111 | the guard closes the socket, with or without a port |
| `EventStream.Source.HandleLine` | web/worker-prelude.js:922-938 | one line has the specified effect on the fields and dispatches the specified events |
| `EventStream.Source.TakeLine` | web/worker-prelude.js:920-921 | the first line leaves the buffer and is handled |
| `EventStream.Source.Receive` | web/worker-prelude.js:918-939 | a chunk dispatches the events of all lines it completes and keeps the rest |
| `EventStream.FeedTwice` | web/worker-prelude.js:915-940 | two chunks are as good as their concatenation, wherever it is cut |
| `EventStream.DrainLater` | web/worker-prelude.js:918-939 | draining what is there and the rest when it comes is draining it all at once |
| `EventStream.ChunkingIrrelevant` | web/worker-prelude.js:912-940 | for every chunking, events and final state are those of the whole text at once |
| `EventStream.CloseMakesChunkingVisible` | web/worker-prelude.js:917-917 | with a close in the handler of event k, the events are those of the text at once if and only if every chunk by which k events are complete completes the last one |
| `EventStream.CloseStopsAtOnceIff` | web/worker-prelude.js:915-940 | exactly the first k events are dispatched if and only if there are fewer or some chunk ends with the k-th complete and no further one |
| `EventStream.StandardLinesIff` | web/worker-prelude.js:920-921 | lines are cut as the HTML Standard cuts them if and only if every CR is followed by LF |
| `EventStream.CollectsLines` | web/worker-prelude.js:922-938 | after any lines the parser holds the data, type and id the Standard collects, stated over the list of lines |
| `EventStream.EventsAgreeIff` | web/worker-prelude.js:922-938 | for every list of lines the events are the Standard's if and only if none is dispatched under an id with a NUL |
| `EventStream.ChunksMeetTheStandard` | web/worker-prelude.js:912-940 | for text whose CRs all precede LFs, every chunking dispatches the events of the Standard's rules, stated on their own, if and only if no event is dispatched under an id with a NUL |
| `Base64Url.BytesToBase64Url` | web/zp-core.js:131-135 | encoding in blocks of 32768 computes the encoding of the whole |
| `Base64Url.ConcatBytes` | web/zp-core.js:208-213 | the chunks end to end |
| `Base64Url.EncodingShape` | web/zp-core.js:131-135 | encoded text uses only the URL-safe alphabet and its length is never 1 modulo 4 |
| `Base64Url.DecodingShape` | web/zp-core.js:136-144 | decoding succeeds for exactly the well-formed texts and unpacks their values |
| `Base64Url.DecodeEncode` | web/zp-core.js:131-144 | decoding undoes encoding for every nonempty byte string |
| `Base64Url.EncodeDecode` | web/zp-core.js:136-144 | encoding undoes decoding if and only if the last character carries no stray bits |
| `ShareLink.CutsUndoConcat` | web/zp-core.js:234-237 | cutting a blob gives back IV, ciphertext and tag |
| `ShareLink.OpenSealed` | web/zp-core.js:221-245 | opening a sealed link gives back the canonical address, for every address, seed and IV |
| `ShareLink.OpensOnlyAuthentic` | web/zp-core.js:231-245 | a link opens only if its blob is IV, ciphertext and the very tag its key signs over them |

## Left out

- URL parsing, splitting a Set-Cookie line into attributes, `Date.parse` and header tokenising: their results are the inputs of the model.
- Lower-casing beyond ASCII: URL parsing has already turned other host names into ASCII.
- Precision of JavaScript numbers: times and ages are integers of any size.
- Cookie change ids, the notify callback and the header text of a lookup: they only pass records on.
- Which request headers are added on the wire (persona, Sec-Fetch, Referer smuggling, the browser-supplied copies at depth zero) and how cookies are attached: the model follows the header set the options carry.
- Referrer policy along a redirect chain, client-hint preferences and the top-level commit after the last hop.
- Stub responses and a kernel that does not load end a task in the model without saying what they contain.
- `corsExposedHeaders` and `corsFilterHeaders`: single-function filters.
- A script whose text cannot be decoded is blocked before the cache is asked and is not among the requests.
- The SHA-256 digest of the rewrite cache: any function without collisions on the payloads it is given.
- QUIC, early data, the counters that bound key-update requests, and the receiving half of the TLS stack.
- TlsSend.SendSide.EncryptOutgoing: sealing is any function of epoch, sequence number, type and payload with the announced length; the ciphers are not part of this model.
- TlsSend.SendSide.MaybeRefreshKeys: the state that derives the next key is not part of this model, only that a new epoch starts; nor is the refusal while a handshake message is incomplete.
- Sizes of sequences near the limit of machine words.
- HTTP parsing and header sanitising in the hub's handlers, and the JSON of a poll: requests are parked, handed out and answered as values.
- A poisoned lock in the compression cache, which turns a request into a failure.
- StreamBridge.Bridge.Post: an exception of `postMessage` is swallowed by the source and not modelled as losing the message.
- Reconnecting an event source, its readyState and the decoding of bytes into text.
- Key derivation, AES-CBC and HMAC of share links: functions with the laws that decryption undoes encryption and verification accepts exactly the signature.
- The HTML, CSS and JavaScript rewriters, page-side membranes, the h2 fork, the relay's other endpoints and the command-line tools: configuration, parsing or delegation without the state machines treated here.
