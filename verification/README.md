# opnsense2otel: verified models

opnsense2otel polls an OPNsense firewall over its API and exports what it finds, and it
compiles Grafana dashboards for the exported data. This project states in Dafny what its most
intricate parts do, and proves what they promise, for every input, every run and every
interleaving.

Verify everything with `dafny verify dfyconfig.toml`.

| file | part |
|---|---|
| `JsonText.dfy` | redaction of error bodies as a function on suffixes of the text; what holds for arbitrary bytes |
| `JsonTree.dfy` | JSON with its white space as a tree, and how the scan moves over its text |
| `JsonRedaction.dfy` | the scan followed string by string: when it is misled, and that otherwise it scrubs the tree |
| `JsonExact.dfy` | that wherever it is misled the texts differ, so the condition is exact |
| `JsonMembers.dfy` | redaction member by member, by what keys decode to and which names are sensitive, under a condition on the tree alone |
| `JsonCases.dfy` | documents where the scan is misled |
| `JsonTwice.dfy` | redacting any text twice is redacting it once |
| `JsonBounds.dfy` | in arbitrary bytes, what is redacted goes up to a boundary |
| `JsonBroken.dfy` | values cut short or closed wrongly are redacted to the end of the text |
| `JsonScanner.dfy` | the index and cursor scanners, proved against `JsonText` |
| `References.dfy` | numeric and named character references to `&` and `?` |
| `Retry.dfy` | the retry loop, backoff in 64-bit integers |
| `Slots.dfy` | the semaphore shared by nested concurrent fetches, as a step system |
| `CacheModel.dfy`, `CacheRuns.dfy`, `CacheRecency.dfy`, `CacheStore.dfy` | the response cache: as a value, over whole runs, its recency list, as an object |
| `Client.dfy` | one API call with the cache in front of it, and whole sessions of calls |
| `Layout.dfy`, `LayoutWalks.dfy` | where a dashboard's hidden variables are declared; references by the ways down the tree |
| `Domains.dfy` | leaf tabs nested under domains, and what their conditions mean |
| `Grid.dfy` | packing panels on 24 columns |
| `Activity.dfy` | the process table under a bounded set of labels |
| `Secrets.dfy`, `Snapshot.dfy` | sensitive configuration keys; pruned snapshots and row identities |
| `Bpf.dfy` | BPF listeners summed twice |
| `CaptivePortal.dfy` | sessions attributed to zones, and the zone map off the wire |
| `DiffBound.dfy` | a diff cut at a line boundary |
| `Totals.dfy`, `Order.dfy`, `Sequences.dfy`, `Integers.dfy`, `Decimal.dfy`, `Wrappers.dfy` | sums by label, string order and sorting, lists, the smaller and larger number, decimal numerals, options and results |

Bytes and runes are characters; times, sizes and counts are integers; packet, CPU and memory
figures, and counts added up beside them, are reals.

## Where the code does less than its documentation, or than one might expect

Each of these is a lemma with the failing inputs, and the exact condition beside it.

- Redacting JSON fields goes wrong where a string starts with a colon and the last string
  before it is no key: the closing quote of that one, the text between and the opening quote
  of this one read as a key. A sensitive key such as `":password"` is then not seen
  (`JsonCases.PasswordSurvives`), and text without any key can be redacted
  (`JsonCases.LineBreakRedacts`). Which strings do harm under which hidden keys is stated on
  the tree, and the redaction is exact if and only if there is none
  (`JsonExact.RedactionIsExact`). The value of a member may start with a colon
  (`JsonMembers.UnexposedFollowsTree`).
- The backoff wraps a 64-bit integer at the 38th retry, and drawing its jitter then panics
  (`Retry.BackoffIsExact`, `Retry.BackoffOverflows`); a request crashes exactly when it may
  make more than 38 attempts and none of the first 38 decides it (`Retry.RunAttempts`).
- A domain of optional tabs means the same as its tabs exactly when it has tabs, and either
  all of them have presence variables or none has (`Domains.DomainMeansItsLeaves`).
- A NUL in a name together with a NUL in a PID can make two processes one for the memory
  figures (`Activity.NulHidesAProcess`); the totals are right exactly when no process with
  memory is hidden that way (`Activity.MemoryIsCountedOnce`).
- A filter rule whose UUID has a colon in it can get the identity of another
  (`Snapshot.DelimiterCollides`); when it does is stated exactly (`Snapshot.SameIdentity`).
- The comment on sensitive keys says that snake case and camel case resolve to one
  vocabulary; `license_key` is sensitive and `licenseKey` is not, while `k_e_y` is not and
  `key` is (`Secrets.LicenseKey`, `Secrets.SplitTerm`). When the two forms agree is
  `Secrets.JoiningKeepsVerdict`.
- A cached answer larger than the response limit of the clone that asks is replayed where an
  uncached clone gets an error (`Client.LowerLimitTells`, `Client.SomeLimitTells`); this is the
  only way a caller can tell (`Client.CachedRefinesUncached`).
- Of two tabs with one path the last one carries a variable, and its uses may be in the other
  (`LayoutWalks.LastTabCarries`); the carrying tab encloses every use exactly when no other tab
  with its path uses the variable (`LayoutWalks.CarrierEnclosesUses`).
- A zone named "unknown" shares its id with the remainder (`CaptivePortal.IdsAreDistinct`).
- The bounded diff is said to stop once the next line would exceed the limit; it also stops
  when the line would only take the room kept for the marker, and it exceeds limits smaller
  than the marker (`DiffBound.BoundLines`).

## Model

| member | source | states |
|---|---|---|
| `JsonExact.RedactionIsExact` | opnsense/client.go:1134-1183 | For every set of hidden keys and every JSON text, any white space, escapes and nesting: the redaction is the text of the tree with the whole value of every hidden key replaced, under every notice, if and only if the scan is misled at no string |
| `JsonExact.RedactionIsExactUnder` | opnsense/client.go:1134-1183 | The same under one given notice, on trees where no string value starts as the notice does |
| `JsonCases.NoticeIsExact` | opnsense/client.go:1135-1183 | The same under the notice the code writes, on trees where no string value starts with an opening bracket |
| `JsonRedaction.RedactionFollowsTree` | opnsense/client.go:1134-1183 | Where the scan is misled at no string the redacted text is exactly that of the scrubbed tree |
| `JsonRedaction.TurnValue` | opnsense/client.go:1138-1181 | From whatever state the scan comes to a printed value, it turns it into the print of the scrubbed one and leaves in the state the walk over the tree says |
| `JsonRedaction.EnterString` | opnsense/client.go:1146-1167 | A string that starts with a colon behind a pending quote is entered without its opening quote, unless the scan cuts inside it |
| `JsonRedaction.ReachKey` | opnsense/client.go:1146-1167 | What of a key the scan sees: all of it, or only what is behind an escaped quote when the key is misread |
| `JsonTwice.RedactionIsIdempotent` | opnsense/client.go:1887-1908 | For arbitrary bytes, redacting a second time changes nothing |
| `JsonTwice.SpaceStays` | opnsense/client.go:1134-1183 | The pass keeps the white space a text starts with and the first byte after it |
| `JsonTwice.MarkerSettles` | opnsense/client.go:1170-1181 | The marker that stands for a value is exactly what is cut again |
| `JsonExact.StrayValue` | opnsense/client.go:1134-1183 | Wherever the scan is misled, output and scrubbed tree differ at some byte, under one of two notices |
| `JsonMembers.UnexposedFollowsTree` | opnsense/client.go:1134-1183 | If no string starts with a colon right after a string that is no key, the redaction is that of the tree whatever is hidden; member values may start with a colon |
| `JsonMembers.UnexposedIsCensored` | opnsense/client.go:1158-1181 | Then the text becomes that of a tree of the same shape, where a member's value is the notice exactly when its quoted key does not decode or decodes to a sensitive name, and everything else is as before |
| `JsonMembers.CensoringIsUnique` | opnsense/client.go:1158-1181 | There is only one such tree |
| `JsonCases.ColonHidesKey` | opnsense/client.go:1150-1159 | After a string value, the value of every hidden key that starts with a colon survives |
| `JsonCases.PasswordSurvives` | opnsense/client.go:1160-1169 | With the real vocabulary, ":password" is sensitive and its value survives |
| `JsonCases.LineBreakRedacts` | opnsense/client.go:1161-1169 | A comma and a line break between two strings do not decode as a key and so count as hidden: the second string is redacted inside exactly when it starts with a colon that something follows as a value |
| `JsonCases.ExposedMayBeFair` | opnsense/client.go:1092-1094 | A string that starts with a colon in that place does no harm when nothing behind the colon counts as a value |
| `JsonText.RedactionIsSplicing` | opnsense/client.go:1134-1183 | For arbitrary bytes the replaced intervals are inside the text, nonempty, ascending and disjoint, and everything outside them is copied unchanged and in order |
| `JsonBounds.NothingTrails` | opnsense/client.go:1040-1129 | For arbitrary bytes every replaced interval goes up to a delimiter or the end of the text, so nothing of a value is left behind a first closing token |
| `JsonBounds.ValueEndsAtBoundary` | opnsense/client.go:1044-1129 | However malformed the text, a value ends where only white space stands before a delimiter or the end |
| `JsonBroken.TruncatedTakesAll` | opnsense/client.go:1040-1101 | However early the text of a value breaks off, the value goes to the end of the text |
| `JsonBroken.WrongBracketTakesAll` | opnsense/client.go:1080-1090 | An array or object that the wrong bracket closes goes to the end of the text, whatever follows |
| `JsonBroken.OpenQuoteTakesAll` | opnsense/client.go:1049-1060 | So does a string of either quote that nothing closes |
| `JsonBroken.TruncatedSecretIsGone` | opnsense/client.go:1040-1043 | Nothing of the value of a hidden key survives in a text that breaks off inside it |
| `JsonBroken.QuotedRunCloses` | opnsense/client.go:1000-1013 | A string ends at the first quote of its kind with an even number of backslashes before it, and is unclosed exactly when there is none |
| `JsonBroken.ScalarEnds` | opnsense/client.go:1091-1100 | A number or word goes up to the first delimiter |
| `JsonBroken.JunkOver` | opnsense/client.go:1111-1128 | What follows a closed value is taken up to the first delimiter outside quotes, or to the end behind an open quote |
| `JsonBroken.ClosedTakesJunk` | opnsense/client.go:1103-1128 | A closed string, array or object takes along the white space and junk behind it, unless only white space separates it from a delimiter or the end |
| `JsonScanner.RedactSensitiveFields` | opnsense/client.go:1134-1183 | The single pass with index and cursor computes the redaction of the whole text; on a JSON document where no string starts with a colon right after a string that is no key, it replaces exactly the values of members whose key does not decode or decodes to a sensitive name |
| `JsonScanner.ValueEnd` | opnsense/client.go:1044-1101 | The end of a value after its key, complete or not: strings, brackets, scalars, and none at a delimiter |
| `JsonScanner.BracketEnd` | opnsense/client.go:1061-1090 | Brackets are matched by a stack and strings inside skipped; a mismatch or the end of the text is no match |
| `JsonScanner.ClosedValueEnd` | opnsense/client.go:1103-1129 | What follows a closed value up to the next delimiter belongs to it unless it is white space |
| `JsonScanner.QuotedStringEnd` | opnsense/client.go:1000-1013 | The end of a quoted string under backslash escapes, or the end of the text if it is not closed |
| `References.NumericReferenceEnd` | opnsense/client.go:1443-1482 | For digit runs of any length and either base, a reference is recognised exactly when its unbounded value is the code, although the sum kept never passes the code by more than one; it ends after the digits and one optional semicolon |
| `References.DigitRun` | opnsense/client.go:1453-1472 | The accumulator is the unbounded value cut off one past the code, over the whole run of digits |
| `References.ReferencesAreLong` | opnsense/client.go:1444-1446 | No reference is shorter than four characters, so the length guard never turns one away |
| `References.ReadingIsUnique` | opnsense/client.go:1447-1475 | A text has at most one reading as a numeric reference |
| `References.ReferenceIsUnique` | opnsense/client.go:1420-1536 | A text starts with at most one reference to a character, by name or by number |
| `References.QuestionMarkReferenceEnd` | opnsense/client.go:1484-1536 | A question mark is recognised exactly as itself, by name in any case before a character that can end a name, or by number; the end is that of the one reference there is |
| `References.SeparatorEnd` | opnsense/client.go:1420-1441 | A question mark or any ampersand separates; an ampersand in escaped form is taken whole |
| `Retry.RunAttempts` | opnsense/client.go:681-780 | The first response that is not a 502, 503 or 504 to a GET before the last attempt decides; retries are used up exactly when there is none, with the last transport error; the sleep of n attempts is between half of and all of 100 ms times 2^(n-1) - 1; a crash takes more than 38 attempts |
| `Retry.BackoffIsExact` | opnsense/client.go:45-50 | The shifted delay is the exact power of two if and only if it is for one of the first 37 retries |
| `Retry.BackoffOverflows` | opnsense/client.go:45-50 | At the 38th retry the delay is negative and no jitter can be drawn; before it always can |
| `Retry.Delay` | opnsense/client.go:685-698 | The sleep is half the backoff and a draw from the other half, its end included |
| `Slots.SlotsAreRequests` | opnsense/client.go:570-581 | In every state of every interleaving of every forest of fetches, slots taken equal requests between acquiring and releasing, and neither they nor the round trips under way, counted from sending until the body is read or closed, exceed the cap |
| `Slots.RoundTripsAreHeld` | opnsense/client.go:724-773 | Every round trip under way, the reading of its body included, holds a slot |
| `Slots.EachSlotIsReleasedOnce` | opnsense/client.go:717-775 | Over the three ways out of a round trip, each with its own call of release before the context check, the next attempt or the return: every slot a request acquires it releases exactly once, and when all is done no slot is taken |
| `Slots.LeaveTally` | opnsense/client.go:737-775 | A request that leaves a round trip, on whichever way, has called release |
| `Slots.WorkTally` | opnsense/client.go:574-578 | What is done before leaving gives the slot back at the first call of release and not again at a further one |
| `Slots.SomeStepIsEnabled` | opnsense/client.go:58-70 | With a cap of at least one, nested concurrent fetches never deadlock: until all is done some goroutine can take a step, without any cancellation |
| `Slots.NoSlotsNoSteps` | opnsense/client.go:570-581 | With no slots a request waits for ever |
| `Slots.ExecutionsEnd` | opnsense/client.go:685-775 | Every step uses up a measure bounded by the fetches, so every execution ends |
| `Slots.ResultsBelongToTheirFunctions` | opnsense/client.go:58-70 | Result i is a result of function i in every interleaving, and its one outcome if nothing was cancelled |
| `Slots.StepTally` | opnsense/client.go:685-775 | Every step of every run moves the semaphore as its event says, takes only what is free, and changes what is held by anyone, by one request, and what is left to do accordingly |
| `CacheRuns.EveryRunIsValid` | opnsense/cache.go:148-242 | After every run of operations the map's keys are the recency list without repetition, the counter is the sum of the costs, the total is at most 32 MiB and each entry at most 4 MiB |
| `CacheRuns.HitIsLastStored` | opnsense/cache.go:148-165 | With a clock that never runs back, a path hits exactly when it is held and the lifetime of what was last stored for it is not over; the hit is that answer, strictly younger than the TTL set when it was stored, also under a rule that depends on the body |
| `CacheRuns.StoredIsFound` | opnsense/cache.go:148-230 | What was just stored is found with its status and body until its lifetime is over, and not after |
| `CacheRuns.OnlyOptedInIsHeld` | opnsense/cache.go:82-114 | In every run nothing is held for a path whose TTL for that kind of answer was never set or was cleared |
| `CacheRuns.SettingsAreTheLast` | opnsense/cache.go:82-145 | After every run both TTLs and both rules of every path are the last ones set for it, a TTL that is not positive or a missing rule clearing it |
| `CacheRuns.DroppedEntries` | opnsense/cache.go:82-165 | Apart from making room, an entry is dropped exactly when a TTL of its path is cleared or it is looked up after its time; nothing else goes |
| `CacheRecency.OrderIsRecency` | opnsense/cache.go:148-230 | After every run the list is strictly in order of last use, most recent first, where a use is a hit or a store |
| `CacheRuns.RefusedPutChangesNothing` | opnsense/cache.go:187-214 | A response that is no success and no 404, is too large, has no TTL, is turned down by its rule or gets no lifetime from it leaves the whole cache as it was |
| `CacheRuns.EntryOrigin` | opnsense/cache.go:148-230 | An entry held after an operation was held before, unchanged, unless this operation stored it |
| `CacheModel.EvictKeepsLargestFit` | opnsense/cache.go:216-224 | Eviction drops exactly the shortest least recently used suffix that makes room, and there always is one |
| `CacheModel.PutStores` | opnsense/cache.go:180-230 | An admitted response ends up in front of the most recently used others that still fit, and storing never fails for want of entries to evict |
| `CacheModel.PutIsExact` | opnsense/cache.go:180-230 | A response is stored exactly when it has at most 4 MiB and is a success of a path with a TTL that the rules of the path admit and grant a lifetime, or the 404 of a path with a TTL for that; it is held from now for its TTL, or for what the rule makes of it if that is less; any other changes nothing |
| `CacheModel.GetValid` | opnsense/cache.go:148-165 | Looking up keeps the cache consistent whether it hits, misses or drops a stale entry |
| `CacheStore.ResponseCache.constructor` | opnsense/cache.go:70-80 | A new cache holds nothing |
| `CacheStore.ResponseCache.SetTTL` | opnsense/cache.go:84-97 | The object follows the model: a positive TTL is set, any other removes the path and its entry |
| `CacheStore.ResponseCache.SetAbsentTTL` | opnsense/cache.go:101-114 | The same for the TTL of absences |
| `CacheStore.ResponseCache.SetAdmissionRule` | opnsense/cache.go:118-130 | The rule of a path is set or cleared and nothing else changes |
| `CacheStore.ResponseCache.SetBodyTTLRule` | opnsense/cache.go:134-145 | The body-dependent TTL rule of a path is set or cleared and nothing else changes |
| `CacheStore.ResponseCache.Lookup` | opnsense/cache.go:148-165 | The object follows the model: a fresh entry is returned and becomes the most recent, a stale one is dropped |
| `CacheStore.ResponseCache.Store` | opnsense/cache.go:180-230 | The object follows the model, eviction loop included: it stores exactly what is admitted, under the status, body and lifetime it has, and otherwise changes nothing |
| `CacheStore.ResponseCache.MakeRoom` | opnsense/cache.go:216-224 | The eviction loop succeeds for every admissible size |
| `CacheStore.ResponseCache.Drop` | opnsense/cache.go:232-242 | Map, list and counter lose the path together |
| `Client.CachedRefinesUncached` | opnsense/client.go:599-635 | Against any server with fixed answers whose 404s depend only on the path, a call of a session, under any TTLs, rules, changes of them, clock and response limits, gets the very value or error of a client without a cache if and only if the cache holds nothing to replay to it or the answer is within the caller's limit |
| `Client.OverlappingRefines` | opnsense/client.go:607-775 | The same however calls overlap, each looking up the cache at one moment and storing its response at another |
| `Client.LowerLimitTells` | opnsense/client.go:88-96 | A body one caller fetched is replayed to another whose limit it exceeds, who would get an error without the cache, for every server, path, TTL and limits |
| `Client.SomeLimitTells` | opnsense/client.go:88-96 | A session of three steps where this happens |
| `Client.OneLimitRefines` | opnsense/client.go:91-96 | As long as all calls have one limit, every call gets what it would get without a cache |
| `Client.CallRefines` | opnsense/client.go:792-898 | One call keeps every held entry truthful, asks the server exactly when nothing is replayed, and answers what the server would if and only if it did or the answer is within the limit |
| `Client.UncachedReply` | opnsense/client.go:685-898 | Without a cache: a value exactly when the first deciding attempt is a 2xx with a whole body that is no blank NDP body and decodes to it; for an unreadable, oversized, failed, empty or undecodable response its own error, status and partial flag; when no attempt decides, the cause of the last; offered to the cache are exactly whole failures, shortened, and the bodies of GETs that decoded |
| `Client.CachedReply` | opnsense/client.go:599-635 | With one: a held 404 is replayed to every request, any other held answer to a GET, decoded for its caller, and everything else is answered as without a cache |
| `Client.CallStores` | opnsense/client.go:826-863 | A call stores an entry exactly when it asks the server and what it offers is admitted |
| `Client.PostsAreLive` | opnsense/client.go:607-635 | No POST is answered with a held body, and of its responses only a 404 is ever stored |
| `Client.SuccessesComeFromGets` | opnsense/client.go:826-863 | Every success held at the end of a session was stored by a GET of that path which the server answered with that status and body |
| `Client.AccountsBalance` | opnsense/client.go:607-657 | In every session hits of a body and hits of an absence are the replays of either kind, they and the observed requests add up to the calls, and misses are the entries ever stored |
| `Client.RunSession` | opnsense/client.go:599-781 | A session run through one client object, up to a panic: each of its own counters is that of the replays, calls and entries stored |
| `Client.ApiClient.constructor` | opnsense/client.go:442-530 | A new client has an empty cache and has counted nothing |
| `Client.ApiClient.Do` | opnsense/client.go:599-781 | The client object answers, stores and counts exactly as the model of a call; nothing comes back exactly when it asks the server and the retry loop panics |
| `Client.ApiClient.ReadResponse` | opnsense/client.go:792-866 | Unreadable, oversized, failed, empty, undecodable and decoded responses each give the reply stated case by case over the body, the limit and the decoding, and only the right ones are offered to the cache |
| `Layout.Builder.PlaceVariables` | grafana/builder.py:1576-1630 | Each sentinel goes to the tab of the deepest level that encloses its every use in the tree, behind what is there and in declaration order; one that is used outside the layout or not at all, and every other variable, stays with the dashboard; all variables together are a permutation of those declared before |
| `Layout.CommonLevel` | grafana/builder.py:1565-1574 | The level encloses every position, and every level that does encloses it |
| `Layout.LevelsAreTabs` | grafana/builder.py:1621-1627 | A level other than the dashboard is always a tab's, so the branch for a level not found is never taken |
| `Layout.NoTabGatesItself` | grafana/builder.py:1513-1521 | No tab is the level of a variable that its own visibility, or that of a tab around it, depends on |
| `Layout.NoTabReceivesItsGate` | grafana/builder.py:1576-1630 | After placement no tab carries such a variable |
| `Layout.LevelsAreUnique` | grafana/builder.py:1590-1592 | The uses alone determine the levels |
| `Layout.OutsideIsGlobal` | grafana/builder.py:1555-1561 | A sentinel that another variable, an annotation or a link uses is at the dashboard level |
| `Layout.LevelIsDeepest` | grafana/builder.py:1493-1574 | The common prefix of the positions collected is the deepest level that encloses every use, found by its way down or outside the layout |
| `Layout.AtSplits` | grafana/builder.py:1615-1630 | Which variables a tab or the dashboard gets, and in which order, is settled part by part of the list |
| `Layout.RefsAreTabs` | grafana/builder.py:1493-1563 | Every position that refers to a variable is the dashboard or a tab of the tree |
| `Layout.RefsAreOccurrences` | grafana/builder.py:1509-1563 | A position refers to a variable exactly when some way down the tree leads to a gate or panel that mentions it, enclosed by exactly the tabs of that position, a tab not enclosing its own gate |
| `LayoutWalks.TabsAreListed` | grafana/builder.py:1598-1613 | Every tab there is a way down to is listed under its full path |
| `LayoutWalks.CarrierEnclosesUses` | grafana/builder.py:1576-1630 | The way down to every use of a variable enters the tab that carries it if and only if no other tab with the path of that tab uses the variable |
| `LayoutWalks.UniquePathsEnclose` | grafana/builder.py:1576-1630 | In particular it does when no two tabs have one path |
| `LayoutWalks.OneTabPerLevel` | grafana/builder.py:1598-1613 | A way down enters one tab per level at most |
| `LayoutWalks.LastTabCarries` | grafana/builder.py:1598-1606 | Two tabs with one path where the only use is in the first and the last carries the variable |
| `Layout.GatesRefer` | grafana/builder.py:1513-1521 | A tab's gate refers to its variables from the tab's parent |
| `Domains.OrganizeTabs` | grafana/build_dashboard.py:2011-2074 | It succeeds exactly when leaf titles are distinct and the groups claim each once and nothing else, and otherwise names the first repeated title or the mismatch; then every group is its leaves or one domain of its title around them, in declared order, every leaf is as before but shown by its presence variables if optional, and every domain is shown always, by presence, or as its leaves are |
| `Domains.DomainMeansItsLeaves` | grafana/build_dashboard.py:2051-2071 | A domain of optional leaves is visible exactly when one of them is, under every assignment, if and only if it has leaves and all or none of them have presence variables |
| `Domains.CondMeans` | grafana/builder.py:1366-1383 | Whatever the choice of and or or, a condition holds exactly when some presence variable has a value, if there are any, and no absence variable has one |
| `Domains.MergedAllMembers` | grafana/build_dashboard.py:2054-2066 | The parent's variables are exactly those of its leaves, each once |
| `Domains.ArrangedKeepsOrder` | grafana/build_dashboard.py:2047-2071 | The leaves of the rebuilt tabs, read in order, are the leaves the groups list |
| `Domains.ArrangedIsLayered` | grafana/build_dashboard.py:2047-2072 | Group after group: an untitled one becomes its leaves, a titled one a domain of that title with them |
| `Domains.DomainByPresence` | grafana/build_dashboard.py:2052-2072 | A domain is shown exactly when some leaf is not optional, no leaf has presence variables, or one of them has a value |
| `Grid.Place` | grafana/builder.py:1350-1363 | Each panel once and in order, no two covering one cell, inside the columns exactly when no wider than the grid, each row just below everything before it; the first unknown panel is an error |
| `Grid.FlowsApart` | grafana/builder.py:1350-1363 | Any layout that follows the row rule keeps its panels apart |
| `Grid.FlowIsUnique` | grafana/builder.py:1350-1363 | The row rule alone fixes the layout of a list of panels |
| `Activity.LabelsAreStable` | opnsense/activity.go:262-272 | The label a command receives first is the one it receives for ever |
| `Activity.LabelsAreBounded` | opnsense/activity.go:262-272 | There are never more than 128 labels and the overflow label |
| `Activity.FirstNamesKeepTheirs` | opnsense/activity.go:262-272 | A command keeps its own name exactly when fewer than 128 other names came before it, or it is the overflow name itself |
| `Activity.RowsAreConserved` | opnsense/activity.go:329-332 | CPU by user and CPU by command are the same total, and threads add up to the accepted rows |
| `Activity.MemoryIsCountedOnce` | opnsense/activity.go:334-342 | When each PID has one user, command and RES, memory by user and memory by command each add up to every PID's RES once, exactly when no key hides a process with memory |
| `Activity.NothingHiddenWithoutNul` | opnsense/activity.go:334-342 | Names without NUL, or PIDs without NUL, hide no process |
| `Activity.NulHidesAProcess` | opnsense/activity.go:335-338 | Two processes with memory of which one is not counted |
| `Activity.ChargedLabels` | opnsense/activity.go:323-342 | Every command label that carries a figure is one of the bounded set |
| `Activity.FiguresAre` | opnsense/activity.go:288-346 | Each map of the aggregate is its charges added up by label, and the capped count the rows folded |
| `Activity.FiguresByLabel` | opnsense/activity.go:323-342 | Under each label each figure is the sum of what the rows add: CPU to the user and, with one thread, to the label of the thread; RES to the user and to the label of the command unless an earlier row had the same name and PID |
| `Activity.SamplesAreRows` | opnsense/activity.go:296-321 | A row counts exactly when it is a table with a command that is neither empty nor "idle", a user, a PID, a percentage and a size |
| `Activity.CappedAreRenamed` | opnsense/activity.go:323-327 | The rows counted as capped are those of which a name got another label, unless a process has the name of the overflow label |
| `Activity.ParseActivityDetails` | opnsense/activity.go:288-346 | The loop over the table yields the figures of the rows that read in full |
| `Activity.ProcessAggregate.CommandKey` | opnsense/activity.go:262-272 | The label given, whether it was folded, and the label set afterwards |
| `Activity.ProcessAggregate.GetStats` | opnsense/activity.go:240-246 | The commands reported are the labels in use, at most one more than the maximum reported, and the capped count is that of folded rows |
| `Activity.ProcessAggregate.constructor` | opnsense/activity.go:248-257 | A new aggregate is that of no rows |
| `Totals.GroupedSum` | opnsense/activity.go:329-342 | Sums by label together carry everything that was charged |
| `Totals.GroupedAt` | opnsense/activity.go:329-342 | Each label carries exactly what it was charged, and only charged labels are there |
| `Snapshot.PruningByPath` | opnsense/config_snapshot.go:113-128 | A path with a sensitive key leads nowhere after pruning, and every other path to what it led to before, itself pruned |
| `Snapshot.PruningIsIdempotent` | opnsense/config_snapshot.go:113-128 | Pruning twice is pruning once |
| `Snapshot.RedactFields` | opnsense/config_snapshot.go:113-128 | Deleting field by field and item by item, in any order, gives the pruned value |
| `Snapshot.SnapshotRows` | opnsense/config_snapshot.go:75-111 | There are entities exactly when every row decodes and has a UUID and every filter rule sharing its UUID has a sort order; then one for each row, in order, pruned, whose id is the UUID, with a colon and the sort order behind it for such a filter rule; otherwise the first row without a UUID, or else the first without its sort order, gives the error |
| `Snapshot.SameIdentity` | opnsense/config_snapshot.go:97-110 | Two rows get one identity exactly when they share their UUID and, for filter rules, their sort order, or they are filter rules where the UUID of one starts with that of the other, repeated, and the delimiter, and the sort order of the other is all the rest |
| `Snapshot.IdsAreDistinct` | opnsense/config_snapshot.go:97-110 | Identities are pairwise distinct exactly when rows that share a UUID are filter rules with different sort orders, for all kinds, as long as no UUID of a filter rule has the delimiter |
| `Snapshot.DelimiterCollides` | opnsense/config_snapshot.go:24-30 | With the delimiter in a UUID two rows with different UUIDs get one identity, whatever the names |
| `Secrets.WordsDecide` | opnsense/config_snapshot.go:161-188 | The lower-case words between separators alone decide whether a key is sensitive |
| `Secrets.SensitiveMeans` | opnsense/config_snapshot.go:130-188 | A key is sensitive exactly when, in lower case and without separators, it is or contains one of the listed names or starts with "prv", or one of its words is "prv" or "key" |
| `Secrets.TermsAreWords` | opnsense/config_snapshot.go:180-188 | The terms of a key are its longest runs without a separator |
| `Secrets.CaseIsIgnored` | opnsense/config_snapshot.go:161-167 | Capital letters count as small ones |
| `Secrets.SeparatorsAreAlike` | opnsense/config_snapshot.go:157-188 | Exchanging separators leaves the words as they are |
| `Secrets.WrittenTogether` | opnsense/config_snapshot.go:167-188 | A key without separators is sensitive exactly as a whole, or when it is itself a term |
| `Secrets.JoiningKeepsVerdict` | opnsense/config_snapshot.go:161-188 | A key is judged alike with its words apart and written together if and only if it is sensitive as a whole, or one of its words is a term exactly when all together are |
| `Secrets.LicenseKey` | opnsense/config_snapshot.go:161-188 | The same two words are sensitive apart and not together |
| `Secrets.SplitTerm` | opnsense/config_snapshot.go:161-188 | Letters of a term are sensitive together and not apart |
| `Secrets.SortOrderIsKept` | opnsense/config_snapshot.go:103-107 | The field that tells filter rules apart survives pruning |
| `Bpf.Statistics` | opnsense/bpf_statistics.go:139-213 | Both tables are strictly sorted with one row for each process and interface there is, and for each direction in the breakdown, an absent one being "unknown"; each figure of a row is the sum over its entries; the breakdown folds to the coarser table and its listener counts add up to the raw entries |
| `Bpf.BreakdownAgrees` | opnsense/bpf_statistics.go:186-211 | Any two tables of the same entries by pair and by direction agree in every figure, and the listeners of the breakdown are the raw entries |
| `Bpf.RowsCarryEntries` | opnsense/bpf_statistics.go:141-211 | Any choice of rows carries exactly what the entries of those keys do |
| `Bpf.Aggregate` | opnsense/bpf_statistics.go:141-184 | Collecting into a map with the keys in order of appearance, then sorting, gives the table |
| `Order.Sort` | opnsense/bpf_statistics.go:168-174 | The result has the same items in the order of their keys |
| `Order.SortedStrictly` | opnsense/bpf_statistics.go:198-207 | With distinct keys the order is strict |
| `Order.LessMeans` | opnsense/bpf_statistics.go:168-174 | Strings compare by the first place where they differ |
| `CaptivePortal.Attribute` | opnsense/captiveportal.go:130-183 | No zones, no entries; otherwise one entry for each configured zone with its description and the number of rows with its id, one more exactly when rows belong to no zone, sessions of all entries add up to the rows, ordered by id |
| `CaptivePortal.DecodeZones` | opnsense/captiveportal.go:13-48 | Every way to write a zone map, as nothing, list or object, decodes to it, and nothing else decodes |
| `CaptivePortal.EveryMapIsWritten` | opnsense/captiveportal.go:13-21 | Every zone map can be written, as a list whenever its ids count up from zero |
| `CaptivePortal.LeftAreOrphans` | opnsense/captiveportal.go:162-177 | What is left of the counts once the zones are taken out is the number of rows of no zone |
| `CaptivePortal.IdsAreDistinct` | opnsense/captiveportal.go:152-177 | The ids of the entries are distinct exactly unless a zone is named as the remainder and there is one |
| `DiffBound.BoundLines` | opnsense/backup.go:62-98 | Nothing is dropped exactly when all lines fit beside the room for the marker, and the text is then the plain join; otherwise it is the longest whole-line prefix that fits, and the marker; it stays within the limit exactly when the marker does or there are no lines |

## Left out

- HTTP, TLS, gzip, redirects, headers, logging and real clocks: a response is a status and bytes or a cause, and time and random draws are inputs.
- Redaction of URLs, user information, HTML attributes and loosely quoted fields, and the composition of all passes: they rest on regular expressions and on HTML and URL decoding.
- JSON decoding: an uninterpreted function of target and bytes; a row or a zone map arrives decoded or broken.
- The text forms of numbers, commands, thread names and sizes in the process table: functions given to the reader.
- `main.go`, endpoint and ACL tables, and the plain fetch mappings: wiring, static data and row copying that would only add easy members.
- Panel JSON, annotations, links and the autogrid of dashboards: data and templates; which panels mention which variable is an input.
- Floating-point rounding: sums are over reals.
- The mutex and the linked list of the cache: each method is one atomic step and the list a sequence.
- The dictionaries that collect variable references, and nested maps pruned in place: modelled as functions of the tree, so aliasing between parts of one tree is not captured.
- Request contexts in the client model: cancellation is in `Slots` only, where every error that cancelling causes is one abort; a client without a limit on concurrency has no slots and is not modelled.
- Slots.ResultsBelongToTheirFunctions: an overflowing backoff is not part of the step system, so a request with more than 38 attempts ends there with its retries used up instead of a panic.
- Client.CachedRefinesUncached: for the server's answers as fixed lists of attempts; a server whose answers change is what the TTLs bound, and is stated by `CacheRuns.HitIsLastStored`.
- Layout.Builder.PlaceVariables: asks that tabs be different objects, as a builder makes them; paths may repeat, and what then fails is stated by `LayoutWalks.LastTabCarries`.
- Bpf.Statistics: rows carry all figures in both tables, while the exported records leave out the listener count in one and the buffer bytes in the other; the single-object form of the entry list is not modelled.
- CaptivePortal.Attribute: the reported total of sessions is copied from the response and not modelled; vouchers are left out.
