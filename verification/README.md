# RustCrash in Dafny

RustCrash manages a transparent proxy on a router and carries its own Rust data plane. This
project models the parts of it whose correctness is not visible in any single function body and
proves what they do on every input, every run or every reachable state. Each module keeps the form
of the code it follows: what the source updates in place is a class or a loop with invariants,
what it computes is a function, and every loop is proved equal to a specification about which the
laws are then proved.

| module | what it models |
|---|---|
| `ForeignChains` | the pre-clean that removes leftover `shellcrash*`, `mihomo*` and `sing-box*` chains from an iptables table it sees only as text |
| `Hijack` | the nft and iptables compilers as rule lists, with a packet evaluator that respects hook priorities |
| `Relay` | the half-close relay between two counted streams, as a state machine and as the two `select!` loops |
| `Routing` | the resumable rule walk with `sniff` and `resolve`, sniffing with replay, and the configuration check behind it |
| `Loader` | what the two configuration loaders guarantee the router: the names that exist and the actions of the rules |
| `FakeIp` | the fake-address pool: wrapping cursor, least-recently-used eviction, persistence |
| `Logging` | the backward-window tail and the rotating log |
| `Chunked` | the HTTP de-chunking loop |
| `Timestamps` | seconds to RFC 3339 text |
| `Addresses` | the SOCKS and port-first address codecs |
| `DnsTcp` | the DNS-over-TCP loop that also recognises HTTP |
| `Query` | the subscription-conversion query printer and parser |
| `Ports` | the port derivations, the validator, and their agreement across four files |
| `Service` | the pid-file supervisor |
| `Refresh` | the interval-gated rule-provider refresher |
| `Common`, `Text` | optional values, results, bytes, trimming |

Dialled sockets, clocks, downloads, DNS answers, rule matching and spawned processes are
parameters of the model: an `Env` of functions, a script of events, or the observed outcome of a
step. Every theorem holds for every such parameter.

Where the code and its own comments disagree, the model follows the code, and the disagreement is
a lemma:

- The cleaner is documented as idempotent and as reporting what was "actually removed". It leaves
  a table clean exactly when no unremovable rule holds a foreign chain (`CleanExactlyWhenNotStuck`);
  a rule with a quoted argument is never found by the arguments cut from its own line
  (`QuotedLineMisses`); a second pass can still remove chains the first one could not
  (`SecondClean`); and the report names every foreign chain of the dump even when `-X` was refused
  (`CleanTable`).
- The iptables script says it hijacks routed traffic the same as the nft backend
  (`core/src/firewall.rs:1228-1230`). They differ on UDP to a selected port
  other than 53, on unrestricted TCP to port 0 (`CompilersAgreeExactly`), and on the INPUT guard
  (`InputsAgreeExactly`). With iptables the mangle chain marks every local packet, so the nat
  OUTPUT redirect behind it is never reached (`OutputFates`).
- The dual-stack port walk claims parity with the shared derivation; it picks the same port exactly
  when its pick is neither the mixed nor the dashboard port (`WalksAgreeExactly`). The nft
  guard looks for the tproxy listener two ports past the proxy, where the kernel need not have put it
  (`GuardCoversTproxyExactly`, `DefaultTproxyIsUnguarded`).
- The comment at `engine/src/dns/fakeip.rs:260` gives a half-open range; the comparison below it
  accepts one address more (`ContainsOneTooMany`). The cursor is said to skip addresses in use; when
  its 32 bits wrap inside a search, the address handed out can be in use (`SafeExactly`). A pool
  never does that, in any run, exactly for prefixes /30 and longer (`NarrowPrefixesExactly`).
- A rotation costs every line it keeps a trailing carriage return, so lines ending in two of them
  change (`RotationInvisibleExactly`, `DoubleCrShows`).
- White space between a chunk size and its extension, which section 7.1.1 of RFC 9112 allows, is an
  error (`SizeReadExactly`).
- `tail_file` asked for `usize::MAX` lines of a non-empty file never stops (`MaxLinesNeverStops`).
- A chunked body without its final chunk is accepted (`MissingFinalChunkIsAccepted`).
- A provider interval of 2^63 seconds or more turns negative, so the provider is always due
  (`EffectiveExactly`, `HugeIntervalIsAlwaysDue`).
- A valid configuration with a TUN port can still yield no kernel section, because the unused
  derivation fails first (`KernelAndFirewallAgree`, `ValidTunConfigWithoutSection`).

## Model

| member | source | states |
|---|---|---|
| ForeignChains.RecognisesExactlyForeignJumps | core/src/firewall.rs:291-303 | for every rule whose words do not themselves end in "-j" and carry no quotes, the textual test holds of its printed line if and only if the rule jumps (not goes) to a foreign-named chain |
| ForeignChains.ForeignNames | core/src/firewall.rs:297-299 | foreign are exactly the names that begin with "shellcrash", "mihomo" or "sing-box" |
| ForeignChains.PlainLineFindsItsRule | core/src/firewall.rs:337-342 | cutting a quote-free rule's printed line into words gives back exactly the arguments that identify the rule |
| ForeignChains.QuotedLineFindsNothing | core/src/firewall.rs:337-342 | the arguments cut from a line with a quoted argument identify no rule of any chain |
| ForeignChains.DeleteByLine | core/src/firewall.rs:337-383 | deleting by the line of a quote-free rule removes that rule's first occurrence and nothing else |
| ForeignChains.QuotedLineMisses | core/src/firewall.rs:337-383 | deleting by the line of a rule with a quoted argument changes no table |
| ForeignChains.DeletesOfChain | core/src/firewall.rs:368-383 | over one chain with duplicates, the deletes of its own dump leave exactly its unremovable rules, in order |
| ForeignChains.DeletesOfTable | core/src/firewall.rs:368-383 | over a whole table, the deletes keep every chain and leave in each exactly its unremovable rules, in order |
| ForeignChains.HeadersListForeign | core/src/firewall.rs:306-317 | reading the chain headers of a dump lists exactly the foreign user chains in dump order, and no header is taken for a jump |
| ForeignChains.DropsLeave | core/src/firewall.rs:384-391 | flushing and deleting chains one after the other removes all of them if and only if none is referred to from a chain not yet flushed; all other chains are unchanged |
| ForeignChains.CleanExactlyWhenNotStuck | core/src/firewall.rs:291-393 | for every table: ordinary chains keep exactly their unremovable rules in order, surviving foreign chains are empty, and no foreign chain or jump is left if and only if no unremovable rule of an ordinary or later foreign chain names one |
| ForeignChains.JumpsOnlyTablesEndClean | core/src/firewall.rs:291-393 | when the rules naming foreign chains are quote-free `-j` jumps without words ending in "-j", any table with any duplicates and cross-jumps ends clean |
| ForeignChains.CleanedIsWellFormed | core/src/firewall.rs:365-391 | the clean keeps what the kernel guarantees of a table (no dangling reference, no foreign built-in, rules told apart by their arguments), so its result can be cleaned again |
| ForeignChains.SecondClean | core/src/firewall.rs:344-393 | for every listing of the surviving chains: the first result is a well-formed table, a second pass changes no ordinary chain, changes nothing after a clean first pass, and ends clean if and only if no ordinary chain held an unremovable reference |
| ForeignChains.QuotedJumpStaysBehind | core/src/firewall.rs:337-393 | one jump with any quoted argument is enough for a well-formed table to stay unclean |
| ForeignChains.CommentedJumpStaysBehind | core/src/firewall.rs:337-393 | the concrete table with a commented jump from OUTPUT to `mihomo` stays unclean |
| ForeignChains.IpTable.Delete | core/src/firewall.rs:373-383 | `-D` removes at most the first rule with these arguments, succeeds exactly when the table changed, and keeps the table well-formed with the same chains |
| ForeignChains.IpTable.Flush | core/src/firewall.rs:384-389 | `-F` empties exactly the named chain and keeps the table well-formed |
| ForeignChains.IpTable.DeleteChain | core/src/firewall.rs:384-389 | `-X` succeeds exactly for an empty, unreferenced user chain, then removes only it from the chains and from their order, and keeps the table well-formed |
| ForeignChains.DeleteJumps | core/src/firewall.rs:368-383 | the jump loop reaches the specified deletions on a well-formed table and reports exactly the lines that removed something |
| ForeignChains.DropChains | core/src/firewall.rs:384-391 | the chain loop reaches the specified drops, leaves the survivors in their order, and reports every chain it was given |
| ForeignChains.CleanTable | core/src/firewall.rs:365-391 | one table ends well-formed, as specified, with the surviving chains in their order, and clean if and only if it was not stuck; the report is the jumps that went followed by every foreign chain of the dump |
| ForeignChains.CleanForeign | core/src/firewall.rs:359-393 | every table of every tool ends as cleaning it alone leaves it, well-formed, and clean if and only if it was not stuck; the report is the tables' reports in order |
| ForeignChains.CleanOnTwoOccasions | core/src/firewall.rs:344-393 | called a second time, every table is clean if and only if no ordinary chain of it held an unremovable reference, a table the first call left clean is unchanged, and ordinary chains keep exactly their unremovable rules |
| Hijack.NftPortFilterMeans | core/src/firewall.rs:919-938 | the gated and ungated nft port filter redirects exactly TCP and UDP to a selected port |
| Hijack.NftPreroutingMeans | core/src/firewall.rs:891-1017 | the nft prerouting chain, rule by rule, is a decision on eligibility, DNS and selected ports, and never changes the mark |
| Hijack.PerSubnetMeans | core/src/firewall.rs:1111-1139 | for every subnet list, one redirect rule per subnet acts as one rule on membership in any of them |
| Hijack.IptPreroutingMeans | core/src/firewall.rs:1091-1237 | the iptables prerouting chain, one rule per subnet, is the same kind of decision with TCP only |
| Hijack.CompilersAgreeExactly | core/src/firewall.rs:886-1237 | nft compiles exactly for proxy ports up to 65533, and both backends give a packet the same prerouting fate if and only if it is not eligible UDP to a selected port other than 53 nor unrestricted TCP to port 0 |
| Hijack.AgreeOnTcpAndDns | core/src/firewall.rs:886-1237 | the backends agree on every TCP packet to a non-zero port and every UDP packet to port 53 |
| Hijack.OnlyLanIsHijacked | core/src/firewall.rs:965-1237 | a packet from outside every hijack subnet is neither redirected, tproxied nor marked in prerouting by either backend |
| Hijack.TproxiedExactly | core/src/firewall.rs:965-1042 | nft tproxies exactly the TCP and UDP of the LAN, exactly in TUN mode and to the TUN port, and the mark it sets takes such a packet past the listener guard |
| Hijack.OutputFates | core/src/firewall.rs:975-1251 | what mangle then nat OUTPUT do with every local packet: iptables marks all non-exempt traffic and redirects none, nft does the same exactly in TUN mode and otherwise redirects selected ports |
| Hijack.ExemptTrafficPasses | core/src/firewall.rs:975-1251 | a local packet with the fwmark or gid 453 or 7890 passes both output chains of both backends unmarked and unredirected |
| Hijack.MacRulesMean | core/src/firewall.rs:990-1198 | for every address list, the MAC rules of both backends drop exactly the blacklisted addresses |
| Hijack.NftInputFate | core/src/firewall.rs:1031-1042 | for every packet: established or marked ones pass, a TCP connection to the mixed, proxy, DNS or tproxy listener passes exactly from the LAN, any other packet is dropped exactly when its MAC is blacklisted |
| Hijack.IptInputFate | core/src/firewall.rs:1253-1258 | for every packet: established or marked ones pass, of the rest exactly the blacklisted MACs are dropped |
| Hijack.InputsAgreeExactly | core/src/firewall.rs:1031-1258 | for every packet, the two INPUT chains agree if and only if it is established, marked or for no listener, or its LAN membership and MAC standing do not point opposite ways |
| Hijack.ForwardFates | core/src/firewall.rs:1044-1264 | for every packet and both backends: FORWARD drops it if and only if it is not established, QUIC is rejected, and it is UDP to 443 |
| Hijack.DefaultLan | core/src/firewall.rs:474-474 | without configured subnets the LAN is exactly the three private address ranges, by their first and last address |
| Hijack.ContainsRange | core/src/firewall.rs:474-474 | an aligned network holds exactly its range of addresses |
| Hijack.RedirectedTcpReachesListener | core/src/firewall.rs:1011-1042 | every TCP packet the nft prerouting chain redirects is let in by the nft guard at its new port |
| Hijack.QuicFates | core/src/firewall.rs:940-1264 | forwarded QUIC is dropped by iptables exactly when rejection is on; with nft it never reaches the drop when port 443 is selected |
| Relay.StepKeepsFlow | engine/src/app.rs:778-856 | every event keeps: written plus in flight is read, at most one chunk in flight in one direction, and both counters exact modulo 2^64 |
| Relay.StepKeepsInvariant | engine/src/app.rs:778-856 | every event also keeps how many directions are done at each point, and that a sink is shut down only after its source ended |
| Relay.EveryRunKeepsInvariant | engine/src/app.rs:778-856 | the invariant holds after every script of events |
| Relay.BytesArriveInOrder | engine/src/app.rs:778-856 | in every run each side holds a prefix of what the other sent, all of it whenever the relay waits for input or has returned Ok, and the counters differ by the bytes in flight |
| Relay.CountersTellInFlight | engine/src/stream.rs:21-77 | received minus sent, modulo 2^64, is the unwritten part of the single chunk in flight |
| Relay.OkMeansBothEndsOrGrace | engine/src/app.rs:820-856 | Ok is returned only after both ends of file, or with exactly one and the grace expired |
| Relay.SecondLoopIsHalfClosed | engine/src/app.rs:820-856 | the relay waits in the grace-bounded loop exactly when one direction has finished, and never waits when both have |
| Relay.StepAfterShutdown | engine/src/app.rs:778-856 | after a side was shut down no event adds to what it was sent |
| Relay.NoWriteAfterShutdown | engine/src/app.rs:778-856 | however a run goes on after a shutdown of a side, nothing more is written to it |
| Relay.CountingStream.PollRead | engine/src/stream.rs:48-64 | a read appends what it received and adds its length to the shared wrapping counter |
| Relay.CountingStream.PollWrite | engine/src/stream.rs:66-77 | a write appends what was accepted and adds its length to the shared wrapping counter |
| Relay.WriteAll | engine/src/app.rs:778-856 | the partial writes of one chunk follow the state machine event by event until it is written, failed or dropped |
| Relay.Turn | engine/src/app.rs:778-856 | one arm of either `select!` follows the state machine to the next loop head |
| Relay.ChunkIsForwarded | engine/src/app.rs:778-856 | in either loop, after every run: a chunk read from an open side arrives at the other whole, behind everything before it, in whatever pieces the sink takes it, and the relay goes on as it was |
| Relay.EndIsPassedOn | engine/src/app.rs:778-856 | in either loop, after every run: the end of a side shuts the other one down; the relay returns Ok exactly when the other direction had ended, else it goes on half-closed |
| Relay.FailuresAndGrace | engine/src/app.rs:778-856 | after every run: a failing read ends the relay with an error, the grace ends it with Ok exactly when it is half-closed, and neither touches a byte |
| Relay.SinkFailures | engine/src/app.rs:778-856 | a sink that fails or takes nothing ends the relay with an error |
| Relay.ConversationIsDelivered | engine/src/app.rs:778-856 | for every conversation of chunks and ends in both directions, each side receives exactly what the other said, is shut down exactly if the other ended, and the relay returns Ok exactly when both have ended |
| Relay.CopyHalfClose | engine/src/app.rs:778-856 | on every script the two loops over counted streams end in exactly the state of the machine, so all its laws hold of them |
| Routing.SniffLosesNothing | engine/src/app.rs:733-763 | however the client's bytes arrive, what was peeked followed by what is left is what the stream held |
| Routing.SniffClient | engine/src/app.rs:733-763 | the read loop computes the specified sniff and loses no byte |
| Routing.SniffFindsLater | engine/src/app.rs:733-763 | a protocol that shows only after several reads is found by the last of them, with exactly the bytes read so far peeked |
| Routing.SniffReplays | engine/src/inbound/mod.rs:180-207 | putting the peeked bytes back in front restores the client stream's content |
| Routing.WalkKeepsClientBytes | engine/src/app.rs:441-553 | however many rules sniff, the client stream comes back with the bytes it had |
| Routing.MatchFrom | engine/src/rule.rs:1085-1116 | the result is the first matching rule at or after the start, or the end |
| Routing.WalkSkips | engine/src/rule.rs:1085-1116 | rules that do not match under a context do not change the walk |
| Routing.RouteRules | engine/src/app.rs:441-553 | re-entering the matcher after each non-final action computes the recursive walk under the rewritten context, returns the client's bytes, and never ends because of its iteration cap |
| Routing.SniffedTargetDecides | engine/src/app.rs:441-553 | after a matching sniff rule that recognises the client's first bytes, every later rule sees the recognised target with its addresses looked up anew, and the client's bytes are as they were |
| Routing.ResolvedAddressesDecide | engine/src/app.rs:441-553 | after a matching resolve rule every later rule sees the addresses of the target's name |
| Routing.ModesChoose | engine/src/app.rs:392-423 | direct mode answers DIRECT, global mode the first group or else the first outbound, rule mode without actions the target of the first matching rule or else DIRECT |
| Routing.WithBuiltinOutbounds | engine/src/config.rs:236-252 | exactly the missing built-ins are appended, in order, names stay distinct, and a second application changes nothing |
| Routing.Validate | engine/src/config.rs:470-521 | a configuration is accepted if and only if it has an outbound or group, readable rules whose targets exist, and group members that exist |
| Routing.WalkEndsAtActionless | engine/src/app.rs:441-553 | a routed result stems from a rule without action, a hijacked one from a hijack-dns rule |
| Routing.NoHijackMeansConfigured | engine/src/app.rs:392-553 | with no hijack-dns rule, or with something called "dns", every connection is routed to a configured outbound or group |
| Loader.AddBuiltins | engine/src/config_singbox.rs:145-160 | direct, block and dns are always declared afterwards, and exactly the undeclared ones were appended |
| Loader.ConvertOutbounds | engine/src/config_singbox.rs:267-635 | every entry becomes an outbound or a group under its own name, in order, nothing else does, and loading fails exactly when an entry is refused |
| Loader.Attach | engine/src/config_singbox.rs:652-656 | exactly the line indices of the rule just converted are given its action, no other index changes |
| Loader.ConvertRules | engine/src/config_singbox.rs:640-661 | for every list of route rules, of any number of lines each, the index-keyed side table says of every line what its own rule said; dropped rules leave no trace; failure exactly when a rule does not convert |
| Loader.LoadSingBox | engine/src/config_singbox.rs:121-783 | loading succeeds exactly when outbounds, rules and the rest do; the result has the declared outbounds and the missing built-ins in order, the declared groups with their members, no providers, and compiles to the source rules with a closing line without action |
| Loader.WalkIsSourceWalk | engine/src/config.rs:209-223 | for every connection the router's walk over the compiled table is the walk over the source rules, each with its own action |
| Loader.ClosingLineDecides | engine/src/config_singbox.rs:662-672 | with a closing line that always matches, every walk ends routed or hijacked, hijacked exactly at a hijack-dns rule |
| Loader.Load | core/src/engine.rs:158-192 | for either dialect `load` succeeds exactly when the dialect's loader does, and yields that configuration with exactly the missing engine built-ins behind its outbounds |
| Loader.LoadedNamesExactly | core/src/engine.rs:158-192 | the configured names are exactly those the file declares, the dialect's built-ins and the engine's |
| Loader.LoadedContents | core/src/engine.rs:158-192 | nothing of the file is lost or changed: outbounds in front, groups with members in order, mihomo's providers and rules without actions, sing-box's rules with their own |
| Loader.LoadedIsUnique | core/src/engine.rs:158-192 | a file determines its configuration |
| Loader.LoadedIsHijackSafe | core/src/engine.rs:158-192 | a loaded configuration has the engine's built-ins, and a configured "dns" whenever any rule carries an action |
| Loader.LoadedRoutesAreConfigured | engine/src/app.rs:392-553 | every loaded and accepted configuration routes every connection, in every mode and whatever matches, resolves or is sniffed, to a configured outbound or group |
| Loader.LoadAndTest | core/src/engine.rs:194-198 | the configuration test succeeds exactly when the file loads to an accepted configuration, returns that configuration, and it never routes to a name that does not exist |
| FakeIp.SweepsExactly | engine/src/dns/fakeip.rs:230-239 | the bounded search visits every offset of the pool if and only if the 32-bit cursor does not wrap inside it or the pool size divides 2^32 |
| FakeIp.SweepFinds | engine/src/dns/fakeip.rs:230-239 | with a free address, a sweeping search finds one |
| FakeIp.FallbackSweepsExactly | engine/src/dns/fakeip.rs:230-242 | search and fallback together reach every offset if and only if the cursor does not wrap inside the search, or stands at 2^32 - 1, or 2^32 leaves remainder 0 or 1 by the pool size |
| FakeIp.SafeCursorChoosesFree | engine/src/dns/fakeip.rs:230-242 | at such a cursor the address handed out is free whenever any is |
| FakeIp.UnsafeCursorChoosesTaken | engine/src/dns/fakeip.rs:230-242 | at every other cursor, with all addresses but the missed one taken, the address handed out is in use |
| FakeIp.AllocationExactly | engine/src/dns/fakeip.rs:208-247 | for every valid pool and unknown domain the maps stay inverse if and only if the address handed out is free once room was made, which a safe cursor guarantees; otherwise two domains share it; no other domain moves, and only the least recently used of a full pool loses its address |
| FakeIp.SafeExactly | engine/src/dns/fakeip.rs:208-247 | the safe cursors are exactly those at which every valid pool allocates to a valid pool |
| FakeIp.StepExactly | engine/src/dns/fakeip.rs:72-255 | an operation, a restart on any store included, keeps the maps inverse if and only if any address it hands out is free, which a safe cursor guarantees |
| FakeIp.RunExactly | engine/src/dns/fakeip.rs:185-255 | a run keeps the pool a bijection throughout if and only if no operation of it hands out an address in use |
| FakeIp.EveryRunIsBijective | engine/src/dns/fakeip.rs:72-255 | from every valid pool, a run of any length that allocates at safe cursors only keeps the pool a bijection; hits, reverse lookups, refused names, flushes and restarts on any store do not matter |
| FakeIp.FewAllocationsAreSafe | engine/src/dns/fakeip.rs:72-255 | in numbers: that holds for a fresh or loaded pool as long as two more allocations than were made since the last flush or restart fit into 2^32 tries |
| FakeIp.AlwaysBijectiveExactly | engine/src/dns/fakeip.rs:185-255 | every run from the empty pool keeps it a bijection if and only if 2^32 leaves remainder 0 or 1 by the pool size; otherwise a run that gives an address twice is constructed |
| FakeIp.NarrowPrefixesExactly | engine/src/dns/fakeip.rs:282-300 | of the prefixes accepted, exactly /30, /31 and /32 never hand out an address twice, so the shipped /15 does in some run |
| FakeIp.SharedAddress | engine/src/dns/fakeip.rs:208-247 | a valid /29 pool with five addresses taken and the cursor at 2^32 - 2 gives the sixth domain the address of the fifth |
| FakeIp.EveryRunIsListed | engine/src/dns/fakeip.rs:208-255 | whatever happens to the addresses, in every run the recency list names every domain exactly once and the pool is never overfull |
| FakeIp.TouchedIsMostRecent | engine/src/dns/fakeip.rs:302-307 | a use puts the domain at the recent end and lets every other one fall back by at most one |
| FakeIp.RecentStep | engine/src/dns/fakeip.rs:208-255 | one operation, at any cursor, cannot evict or move a domain that is not the oldest of a full pool |
| FakeIp.RecentSurvives | engine/src/dns/fakeip.rs:208-255 | at any cursor, a domain keeps its address through any lookups and reverse lookups that are fewer than the pool has room for beside the domains used since |
| FakeIp.ContainsOneTooMany | engine/src/dns/fakeip.rs:257-262 | membership holds exactly in the pool's range and at one address past it |
| FakeIp.LoadedIsValid | engine/src/dns/fakeip.rs:72-144 | whatever the store holds, a pool that loads has inverse maps inside its range |
| FakeIp.PersistThenLoad | engine/src/dns/fakeip.rs:72-180 | persisting and loading gives the pool back, order included, with the cursor reduced to its offset |
| FakeIp.RestartKeepsPool | engine/src/dns/fakeip.rs:72-180 | a restart on the store just written keeps every domain, its address and its age, and brings the cursor back to where a search cannot wrap |
| FakeIp.FakeIpPool.LookupOrAlloc | engine/src/dns/fakeip.rs:208-247 | long names are refused without effect, a known domain keeps its address and becomes most recent, a new one is allocated as specified |
| FakeIp.FakeIpPool.Reverse | engine/src/dns/fakeip.rs:250-255 | the domain of the address, which becomes most recent; an unknown address changes nothing |
| FakeIp.FakeIpPool.Flush | engine/src/dns/fakeip.rs:185-191 | the pool is the empty one |
| FakeIp.FakeIpPool.Touch | engine/src/dns/fakeip.rs:302-307 | the recency list is the specified one |
| Logging.LinesSplit | core/src/logging.rs:73-81 | text ending in a line feed contributes its own lines whatever follows |
| Logging.WindowSuffices | core/src/logging.rs:67-81 | a window with more than n line feeds has the file's last n lines, even when it starts inside a line |
| Logging.TailFile | core/src/logging.rs:45-82 | the doubling window stops and returns exactly the last n lines of the whole file, or nothing for a missing file |
| Logging.MaxLinesNeverStops | core/src/logging.rs:55-72 | on a non-empty file, asking for `usize::MAX` lines makes the window empty and the loop repeats its state forever |
| Logging.LogFile.AppendRotated | core/src/logging.rs:17-41 | the file after an append is the specified one, rotated or not, created when missing |
| Logging.AppendedStores | core/src/logging.rs:17-41 | for newline-free lines, appending stores the old lines, or at the cap all but the oldest 20 read and written back, followed by the new line |
| Logging.StoredIs | core/src/logging.rs:17-41 | line by line, a rotated log holds the newest lines, each stripped of a carriage return once for every rotation it saw |
| Logging.LogKeepsNewest | core/src/logging.rs:17-41 | after any newline-free appends to a fresh log: its exact number of lines, at most 199 and at least the newest 180, each being that line of the history up to carriage returns |
| Logging.RotationInvisibleExactly | core/src/logging.rs:17-82 | for every newline-free history and every n, the last n lines of the rotated log are those of the log never rotated if and only if it still holds n lines, or all, and every one of them appended before the latest rotation does not end in two carriage returns |
| Logging.RotationIsInvisible | core/src/logging.rs:17-82 | so for histories without such lines rotation never shows in a tail of up to 180 lines |
| Logging.StableExactly | core/src/logging.rs:25-26 | a line survives being read and written back if and only if it does not end in two carriage returns |
| Logging.DoubleCrShows | core/src/logging.rs:17-82 | after two hundred appends of two carriage returns the last 180 lines differ from the unrotated ones |
| Chunked.DechunkLoop | engine/src/api.rs:1463-1478 | the loop computes the specified decoding while the remaining input strictly shrinks |
| Chunked.SizeReadExactly | engine/src/api.rs:1467-1468 | digits, white space and an extension are read as the value of the digits if and only if the white space or the extension is empty, else rejected |
| Chunked.DechunkStep | engine/src/api.rs:1466-1477 | one chunk is taken, a short one is an error, a zero one ends the body |
| Chunked.DecodeInvertsEncode | engine/src/api.rs:1463-1478 | for every list of chunks, sizes, extensions and trailer, decoding gives the concatenated payload |
| Chunked.CutBodies | engine/src/api.rs:1463-1478 | a whole body, final chunk line and trailer included, cut at any point is an error exactly when the cut falls inside chunk data, else it decodes to the chunks received in full |
| Chunked.MissingFinalChunkIsAccepted | engine/src/api.rs:1463-1478 | a body that stops between chunks is taken as complete |
| Timestamps.NextYear | engine/src/api.rs:1325-1335 | the closed-form day count grows by exactly the length of each year |
| Timestamps.CivilOf | engine/src/api.rs:1315-1349 | for every second count the loops yield a valid date and time that the closed-form inverse maps back |
| Timestamps.Rfc3339Utc | engine/src/api.rs:1315-1349 | the text returned is that of the valid date and time of exactly these seconds |
| Timestamps.TextReadsBack | engine/src/api.rs:1348-1348 | through year 9999 a reader of section 5.6 of RFC 3339 reads the text back as its date and time |
| Timestamps.TextsSortAsSeconds | engine/src/api.rs:1315-1349 | the texts of two seconds before the year 10000 sort, and differ, exactly as the seconds |
| Timestamps.TextsAreDistinct | engine/src/api.rs:1315-1349 | in every year different seconds have different texts |
| Timestamps.CalendarOrderIsTimeOrder | engine/src/api.rs:1315-1349 | calendar order and equality are time order and equality |
| Timestamps.TextOrder | engine/src/api.rs:1348-1348 | through year 9999 text order is calendar order |
| Timestamps.TextOrderIsTimeOrder | engine/src/api.rs:1315-1349 | through year 9999 the texts sort and differ exactly as the instants do |
| Timestamps.YearEnd | engine/src/api.rs:1325-1348 | the last second of every year is followed by the first of the next |
| Timestamps.FiveDigitYearsBreakOrder | engine/src/api.rs:1348-1348 | the last second of 9999 sorts after the first of 10000 |
| Addresses.PushHost | engine/src/addr.rs:134-226 | the type byte and host are appended behind what the buffer held |
| Addresses.EncodeSocks | engine/src/addr.rs:202-226 | the SOCKS form is appended behind what the buffer held |
| Addresses.EncodePortFirst | engine/src/addr.rs:134-155 | the port-first form is appended behind what the buffer held |
| Addresses.WireForms | engine/src/addr.rs:134-226 | both wire forms byte by byte, with the type bytes of section 5 of RFC 1928 for SOCKS |
| Addresses.DecodedIsEncoded | engine/src/addr.rs:157-276 | whatever either decoder accepts is the wire form of what it returns, up to the case of a domain, with exactly the consumed length |
| Addresses.SocksRoundTripExactly | engine/src/addr.rs:202-276 | with any bytes behind it an address decodes to itself and its own length if and only if its host is canonical; up to 255 bytes a domain decodes to its lower-case form |
| Addresses.PortFirstRoundTripExactly | engine/src/addr.rs:134-199 | the same for the port-first form |
| Addresses.StrictPrefixesRejected | engine/src/addr.rs:134-276 | every strict prefix of either form is rejected |
| Addresses.SocksStreamParsesBack | engine/src/addr.rs:202-276 | concatenated SOCKS addresses parse back to exactly themselves |
| Addresses.PortFirstStreamParsesBack | engine/src/addr.rs:134-199 | concatenated port-first addresses parse back to exactly themselves |
| Addresses.StreamsAreInjective | engine/src/addr.rs:134-276 | different lists of canonical addresses never share a wire form |
| DnsTcp.ServeConnection | engine/src/app.rs:1299-1333 | the loop with its carried prefix produces the specified output and end on every input |
| DnsTcp.LegalLengthIsNotHttp | engine/src/app.rs:1308-1350 | no legal length prefix is taken for an HTTP method, and it reads back as the length |
| DnsTcp.FramedQueriesGetFramedAnswers | engine/src/app.rs:1299-1333 | framed queries get the framed answers in order up to the first empty one or failed write, stray byte or not |
| DnsTcp.QueriesThenMore | engine/src/app.rs:1299-1333 | behind answered queries the connection does with whatever follows what it would do with it alone |
| DnsTcp.HttpIsHandedOver | engine/src/app.rs:1308-1350 | after any answered queries an HTTP request of any of the six methods is handed to the DoH server with every byte of it |
| DnsTcp.IllegalLengthCloses | engine/src/app.rs:1312-1315 | after any answered queries a length outside 12 to 4096 that begins no HTTP method closes the connection behind the answers |
| DnsTcp.DeframeInvertsFrames | engine/src/app.rs:1324-1325 | messages of at most 65535 bytes are read back from their frames |
| DnsTcp.FramesReadBackExactly | engine/src/app.rs:1324-1325 | framed messages are read back if and only if each is at most 65535 bytes |
| DnsTcp.ClientReadsAnswersExactly | engine/src/app.rs:1299-1333 | end to end the client reads back exactly the answers if and only if each answer it was sent fits its length field |
| DnsTcp.FrameFitsExactly | engine/src/app.rs:1324-1325 | a message survives its truncated 16-bit length if and only if it is at most 65535 bytes |
| Query.NamesAreRecognised | core/src/subscription.rs:309-464 | every printed key is parsed as that key and none as the target |
| Query.DecodeInvertsEncode | core/src/subscription.rs:309-464 | percent-decoding inverts percent-encoding on every byte text |
| Query.PercentFreeStays | core/src/subscription.rs:309-381 | text without percent signs is taken as it is |
| Query.ParseQuery | core/src/subscription.rs:309-381 | the loop over pieces computes the specified options or the missing-target error |
| Query.LastPairWins | core/src/subscription.rs:309-381 | in every query the last pair of a key decides: a text is decoded, a flag is set exactly by "true", no other field changes |
| Query.PrintParts | core/src/subscription.rs:384-464 | exactly the set fields are printed, in order, behind the target |
| Query.PrintQuery | core/src/subscription.rs:384-464 | the joined parts are the specified query |
| Query.SplitInvertsJoin | core/src/subscription.rs:309-464 | splitting undoes joining for ampersand-free parts |
| Query.ApplyPart | core/src/subscription.rs:309-464 | parsing a printed part sets that field to its printed value and no other |
| Query.ApplyParts | core/src/subscription.rs:309-464 | parsing all printed parts sets exactly the printed fields |
| Query.PlainRoundTrips | core/src/subscription.rs:309-464 | for a plain target the parsed options are the printed ones with the unprinted fields cleared |
| Query.ParsedTarget | core/src/subscription.rs:309-381 | a parsed target is always trimmed and ampersand-free, whatever the query |
| Query.RoundTripExactly | core/src/subscription.rs:309-464 | the round trip holds if and only if the target is non-empty, trimmed and ampersand-free |
| Ports.DerivedIsLeastFree | core/src/rules.rs:42-65 | the derived port is the least free one at or past proxy+2, at most three further; it fails exactly when all up to 65535 are taken, never for a proxy up to 65530 |
| Ports.DeriveTproxyPort | core/src/rules.rs:42-65 | the loop computes the derivation with at most four candidates |
| Ports.FirewallWalk | core/src/firewall.rs:811-820 | the wrapping walk stops at a port it does not skip, for a proxy up to 65530 the first or second candidate |
| Ports.WalksAgreeExactly | core/src/firewall.rs:807-820 | the firewall's pick is the derived port if and only if it is neither the mixed nor the dashboard port |
| Ports.ValidationResult.AddError | core/src/validate.rs:59-66 | an error is recorded and validity is lost |
| Ports.ValidationResult.Merge | core/src/validate.rs:72-78 | merging keeps valid-exactly-when-error-free and all errors |
| Ports.ValidatePorts | core/src/validate.rs:113-140 | exactly the out-of-range ports are reported, in order |
| Ports.CheckFixedConflicts | core/src/validate.rs:143-170 | exactly the clashes of the fixed listeners are reported |
| Ports.CheckTproxyConflicts | core/src/validate.rs:184-207 | exactly the clashes of the effective tproxy port are reported |
| Ports.ValidatePortsAvailable | core/src/validate.rs:142-208 | all clashes, or the failed derivation, are reported |
| Ports.Validate | core/src/validate.rs:92-111 | the result is valid if and only if no error was recorded |
| Ports.ValidExactly | core/src/validate.rs:92-282 | a configuration is valid if and only if texts are known, ports in range, and these listeners pairwise apart |
| Ports.KernelAndFirewallAgree | core/src/config.rs:268-312 | for a valid configuration the kernel section exists exactly without TUN port or with a successful derivation, and then kernel and firewall name the same ports, with TUN enabled the same tproxy port |
| Ports.FirewallFollowsConfig | core/src/config.rs:268-312 | the firewall built from a configuration treats every packet as the configuration says: eligibility, selected ports, blacklisted MACs, rejected QUIC and the DNS redirect |
| Ports.GuardCoversTproxyExactly | core/src/firewall.rs:902-1040 | the nft guard covers the kernel's tproxy listener if and only if TUN is enabled or the listener sits where the guard looks |
| Ports.ValidTunConfigWithoutSection | core/src/rules.rs:92-106 | a valid configuration with a TUN port for which no section is generated |
| Ports.DefaultTproxyIsUnguarded | core/src/firewall.rs:902-1040 | with the shipped ports and no TUN the kernel's tproxy listener is outside the guard |
| Service.StepKeeps | core/src/service.rs:145-441 | every command keeps: pid files name processes of their slot, and every live process of the manager is named by its slot's pid file |
| Service.EveryRunIsSupervised | core/src/service.rs:145-441 | that holds after every run of start, stop, restart, crash and watchdog steps |
| Service.AtMostOnePerSlot | core/src/service.rs:145-441 | in every run two live processes of one slot are the same one and its pid file names it |
| Service.StopLeavesNothing | core/src/service.rs:239-278 | after a stop no process of the manager is alive, nothing is recorded, and other processes are untouched |
| Service.StopEndsEverything | core/src/service.rs:239-278 | that holds after every run ended by a stop |
| Service.RestartLeavesExactlyOne | core/src/service.rs:329-345 | a successful restart leaves the selected slot's process as the only live one |
| Service.StartIsIdempotent | core/src/service.rs:145-441 | starting a running slot again, or a watchdog tick over it, changes nothing and reports the same pid |
| Service.StartWorks | core/src/service.rs:145-441 | from every supervised world, stale pid file or not, a start under good conditions ends with the slot running and recorded and reports its pid, the running process or a new one; every other slot and process is untouched |
| Service.StartFailsExactly | core/src/service.rs:145-441 | a start fails exactly when the kernel is not installed, or has to be spawned and cannot be; then nothing changes |
| Service.WatchdogWorks | core/src/service.rs:660-673 | a watchdog tick under good conditions ends with the slot running and leaves a running slot and all others alone |
| Service.CrashedKernelComesBack | core/src/service.rs:660-673 | after every run, a kernel that crashed is back after the next tick: exactly one process of the slot is alive, it is a new one, and the pid file names it |
| Service.ServiceManager.StartSlot | core/src/service.rs:145-441 | the start of a slot reaches the specified world and result under every outcome of its steps |
| Service.ServiceManager.Terminate | core/src/service.rs:241-253 | whatever the bounded wait observes, the process is gone and no other is touched |
| Service.ServiceManager.StopAll | core/src/service.rs:239-278 | the loop over the slots reaches the stopped world |
| Service.ServiceManager.RestartSlot | core/src/service.rs:329-345 | a restart is the stop followed by the start, whose result it reports |
| Service.ServiceManager.WatchdogTick | core/src/service.rs:660-673 | a tick starts the selection exactly when it is not running |
| Refresh.FinishedAreSpawned | core/src/rules.rs:251-270 | whatever order the tasks finish in, each due provider finishes exactly once |
| Refresh.JoinAll | core/src/rules.rs:265-270 | the join loop passes on the tasks that did not panic in the order they finish and reports the panics |
| Refresh.Record | core/src/rules.rs:272-286 | the loop over the results stamps exactly the stored downloads and reports the updates and the failures in order |
| Refresh.RuleProviderManager.UpdateDue | core/src/rules.rs:229-294 | the tasks of a run are exactly the providers due at the state it loads; the new state and the parts of the report follow from how they finish |
| Refresh.TasksExactly | core/src/rules.rs:210-239 | for intervals below 2^63 a run downloads exactly the providers never recorded or recorded at least their interval ago, lists none of them as skipped, and every name none of them has |
| Refresh.RecordsExactly | core/src/rules.rs:272-292 | a run records exactly the names it updated, at its own time, if it saves, and changes no other record |
| Refresh.RefreshedExactlyWhenElapsed | core/src/rules.rs:210-294 | over every sequence of runs a provider last recorded by one run is downloaded by a later one if and only if at least its interval lies between them, and is then not listed as skipped |
| Refresh.NeverRecordedIsDownloaded | core/src/rules.rs:210-225 | a provider no run has recorded is downloaded by the next one |
| Refresh.RunAccountsForEveryone | core/src/rules.rs:229-294 | as multisets, updated, failed, panicked and skipped are together exactly the providers, if and only if no due provider shares its name with one that is not due |
| Refresh.DistinctNamesNeverClash | core/src/rules.rs:232-239 | distinct names are enough for that |
| Refresh.RecordStays | core/src/rules.rs:210-294 | over every sequence of runs with a monotone clock and successful saves a recorded time is never lost and never goes back |
| Refresh.DownloadsKeepTheirDistance | core/src/rules.rs:210-294 | over every such sequence two recorded downloads of one provider are at least its effective interval apart |
| Refresh.EffectiveExactly | core/src/rules.rs:216-217 | the effective interval is the configured one if and only if it is between 1 and 2^63 - 1; beyond, it is negative |
| Refresh.HugeIntervalIsAlwaysDue | core/src/rules.rs:210-225 | with such an interval a provider is due exactly until its record lies 2^64 minus the interval in the future, hence whenever its record is not in the future |
| Refresh.FailureStaysDue | core/src/rules.rs:210-294 | a due provider that was not updated is due at every later time, saved or not |

## Left out

- Text of the firewall scripts, CIDR parsing, nft's refusal of overlapping set elements and iptables' 15-port `multiport` limit: rules are values.
- The IPv6 dual-stack script apart from its port walk, the policy-routing scripts, and the selective clean-up: straight-line text.
- Other programs' rules in the built-in chains, and what the kernel does with a tproxied packet after mangle: only RustCrash's own chains are evaluated.
- The nft table deletion and the `ip rule` clean-up of the foreign-state cleaner: what they remove depends on kernel state outside the code.
- A dump that fails, and double-quote characters inside rule arguments (which `iptables -S` escapes): a table either is dumped or is not in the list.
- CleanForeign: the report's wording is not modelled, only which jump or chain each line names.
- Text is ASCII or bytes; lossy UTF-8 conversion and Unicode white space are not modelled.
- Relay: the grace timer is an event of the second loop's `select!`, and does not interrupt a write in progress, as in the source; the check between the two loops that both directions are done is unreachable and has no counterpart.
- Routing: rule matching, sniffing of protocols, DNS resolution and fake-address reversal are functions of the environment; the matched rule's label and the group-touch bookkeeping are not modelled.
- Warnings of either configuration check are not modelled.
- ValidExactly: does not claim dns apart from dashboard, mixed apart from dashboard, or a defaulted mixed port apart from dns, because the validator does not check them.
- The DoH server behind the DNS port: the model hands the connection over and stops.
- TailFile: requires fewer than 2^64 - 1 lines on a non-empty file; on the excluded request the code does not return, as `MaxLinesNeverStops` shows.
- FakeIpPool: ranges whose last usable address is the last IPv4 address, where `base + 1 + size` overflows, are not modelled.
- The mutex of the fake-address pool: operations are sequential, as it makes them.
- The JSON coding of the fake-address store and of the provider state: stores are values.
- Service: pid reuse, refused signals, failed pid-file writes, concurrent managers and notification side effects are not modelled.
- Loader: JSON and YAML, the fields of outbounds, inbounds and DNS are not modelled, only whether they load; a rule line is given by what it parses to, and how a route rule is converted into lines is a parameter.
- Refresh: the download, its concurrency bound and the 64-bit overflow of the age subtraction are not modelled; completions arrive in any order.
- Health checks, expected-status parsing, websocket framing, templates, bots, backups, and API dispatch: wrappers or easy members.
