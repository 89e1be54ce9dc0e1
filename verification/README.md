# Verification of the foxy proxy library

This project models, in Dafny, the parts of foxy with the most state and the most branching, and
proves what holds of them for every input, every environment and every interleaving:

- **Flattened writes** (`Buffers`, `Coalescing`, `FlatWrites`, `GreedyWrites`). A flat stream picks a
  prefix of the caller's buffers, copies it into one heap buffer if it has two or more parts, and
  offers it to the next layer, which may take any part of it or fail. The loop a caller writes around
  it sends the caller's bytes in order and once each, and no way of grouping the buffers under the
  same limit needs fewer writes.
- **Asynchronous writes** (`WriteLog`, `AsyncWrites`). Any number of write operations are in flight;
  the next layer completes them in any order or destroys them. An allocator ledger and a log of events
  show when each heap buffer is allocated, read and freed, and when each handler runs.
- **Partitioning of headers** (`OptionScanner`, `HeaderFields`, `Partition`, `Tunnel`). A scanner reads
  connection options out of Connection values; three loops move the nominated fields to another
  container; a tunnel forwards each header without them.
- **CONNECT negotiation** (`Environment`, `Target`, `Connect`, `Negotiation`, `NegotiationTrace`,
  `NegotiationScript`, `ProxySession`). Coroutines are resumed by an environment that chooses how every awaited operation
  completes. A script of completions may end anywhere, which leaves the coroutine waiting, so a
  statement about all scripts is one about every finite part of every run.

Code that changes state is modelled by classes and methods with loops. Each method is proved against
a function of its inputs and of the old state, and the lemmas prove what the source promises about
that function. What a function shares with the method it specifies, such as which completion is a failure,
which status answers a request or which characters are spaces, is pinned down by laws that speak of the
completions, requests and characters themselves. `dafny verify dfyconfig.toml` checks the whole project.

## Findings

Where a natural claim is false of the code, the model keeps the code, a lemma gives an input, and another
says exactly when the claim holds.

- A write of zero bytes can be offered although bytes are left. If every buffer has at most the largest
  64-bit size less the limit, so that no sum wraps around, this happens exactly when the first buffer is
  empty and the first non-empty one exceeds the limit; for any sizes, exactly when the first buffer
  reaches the limit and is empty, or is under it and the buffers taken add up to a multiple of 2^64
  (`StallsExactly`, `StallInput`, `WrapInput`). The caller's loop therefore has to drop leading empty
  buffers.
- The 64-bit addition in the scan selects what exact arithmetic selects if and only if the sum that
  stops it does not wrap (`CoalesceExactIffNoWrap`, `WrapInput`).
- The class comment of `flat_stream` speaks of flattening the sequences of more than one buffer whose
  total is below the limit (include/foxy/experimental/core/flat_stream.hpp:26-28). The code flattens the longest prefix that totals at most the limit, however large the rest is
  (`FlattensExactly`). The two differ exactly when the first two buffers fit and the total is not below
  the limit (`CommentDisagreesExactly`, `CommentInput`). The model follows the code.
- The option scanner stops at the first empty element behind an option. It finds every option of the
  list grammar in section 7 of RFC 7230 if and only if no empty element stands between two others
  (`ScanFindsAllOptionsExactly`, `ScanMissesAfterGap`). A tunnel can therefore forward a field that the
  client listed; it forwards none exactly if every option behind a gap names Connection, a field that is
  absent or one that another option names (`ListedOptionsRemovedExactly`, `ForwardsBehindGap`).
- A field is partitioned without loss, gain or reordering if and only if it is absent or nominated at
  most once (`LosslessExactly`, `DuplicateNominationDuplicates`). Connection itself loses only its
  empty values if and only if no option nominates it (`ConnectionLosesEmptyExactly`,
  `SelfNominationDuplicates`).
- "The tunnel is entered only when a remote host is connected" is false: a client that declines
  persistence gets a 400 and then, if that write succeeds, the tunnel (`TunnelWithoutConnection`). A run
  that enters the tunnel has a connected remote host if and only if the last request asked for
  persistence (`PlainConnectedExactly`). With TLS there is a second way in, behind a 200
  (`TunnelAfterNameFailure`), and the condition excludes it too (`ConnectedExactly`).
- With TLS, a connect operation can report success without a connection if setting the server name
  fails and the library's error number is zero as a 32-bit integer (`ReportsSuccessExactly`,
  `RefusedWithZero`). The proxy makes its client session without TLS, so this case does not reach it.
- A request target is parsed in part. The parse of a target that is not empty stands for the whole of it
  exactly for the form host or host:port (`ParseTakesWholeExactly`, `ParseCutsAddress`).

## Model

| member | source | states |
|---|---|---|
| Coalescing.Coalesce | include/foxy/experimental/core/detail/flat_stream.hpp:30-57 | the loop yields the settings in 64-bit arithmetic, wrap-around included, for every buffer sequence and limit |
| Coalescing.CoalesceTakesLongestPrefix | include/foxy/experimental/core/detail/flat_stream.hpp:34-56 | with a first buffer under the limit the byte count is that of the longest prefix totalling at most the limit and the flag says whether it has two or more buffers; otherwise it is the first buffer alone |
| Coalescing.CoalesceExactIffNoWrap | include/foxy/experimental/core/detail/flat_stream.hpp:44-52 | the wrapped scan agrees with exact arithmetic if and only if the stopping addition does not wrap |
| Coalescing.SettingsBounds | include/foxy/experimental/core/detail/flat_stream.hpp:34-56 | for any sizes, a write carries no more than there is, a flattened one no more than the limit, an unflattened one exactly the first buffer |
| Coalescing.WrapInput | include/foxy/experimental/core/detail/flat_stream.hpp:44-52 | two buffers whose sum wraps to zero: the scan takes both where exact arithmetic takes one, and nothing is offered |
| Coalescing.StallsExactly | include/foxy/experimental/core/detail/flat_stream.hpp:37-53 | for any sizes, a zero-byte write with bytes left happens if and only if the first buffer reaches the limit and is empty, or is under it and the buffers taken add up to a multiple of 2^64; with every buffer at most the largest 64-bit size less the limit, if and only if an empty first buffer precedes a first non-empty one over the limit |
| Coalescing.StallInput | include/foxy/experimental/core/detail/flat_stream.hpp:37-53 | an empty buffer before one of 16 KiB and a byte |
| Coalescing.FlattensExactly | include/foxy/experimental/core/detail/flat_stream.hpp:37-56 | a write is flattened if and only if the first buffer is under the limit and the 64-bit sum of the first two is within it |
| Coalescing.CommentDisagreesExactly | include/foxy/experimental/core/flat_stream.hpp:26-28 | for any sizes, the class comment and the code differ if and only if the first two buffers are flattened and the total is not below the limit |
| Coalescing.CommentInput | include/foxy/experimental/core/flat_stream.hpp:26-28 | three buffers at which they differ |
| Coalescing.LimitIs16384 | include/foxy/experimental/core/detail/flat_stream.hpp:26 | two buffers of 8192 bytes are offered as one, and with one byte more the first is offered alone |
| FlatWrites.BufferCopy | include/foxy/experimental/core/impl/flat_stream.ipp:131-134 | the target becomes the prefix of the stream bounded by target, maximum and source, followed by what stood behind it before |
| FlatWrites.FlatStream.Gather | include/foxy/experimental/core/impl/flat_stream.ipp:220-229 | flattened or not, what is offered is the first bytes of the stream as one contiguous buffer |
| FlatWrites.FlatStream.WriteSome | include/foxy/experimental/core/impl/flat_stream.ipp:232-253 | one offer is made, the count and error are the next layer's, and exactly that many bytes of the stream go out |
| FlatWrites.FlatStream.WriteSomeOrThrow | include/foxy/experimental/core/impl/flat_stream.ipp:209-230 | the same write, with an error thrown |
| FlatWrites.FlatStream.WriteAll | include/foxy/experimental/core/flat_stream.hpp:287-289 | dropping accepted bytes and writing again delivers a prefix of the stream, its length is what was counted, and all of it goes out when no error is reported |
| FlatWrites.OneWrite | include/foxy/experimental/core/impl/flat_stream.ipp:243-252 | a write from trimmed buffers takes the next bytes of the stream, leaves the stream without them and makes progress unless it fails |
| FlatWrites.DrainDelivers | include/foxy/experimental/core/impl/flat_stream.ipp:232-253 | under every pattern of partial writes and errors the bytes out are a prefix of the stream, complete without error, offered in non-empty single buffers, in at most as many writes as bytes |
| FlatWrites.DrainStopsAtError | include/foxy/experimental/core/impl/flat_stream.ipp:243-252 | the loop goes on while the answers carry no error, and reports the first that does |
| FlatWrites.StallsForEver | include/foxy/experimental/core/impl/flat_stream.ipp:232-253 | a list at which, whatever the next layer answers, nothing is taken and the same list is left, so that the loop around the writes never ends |
| FlatWrites.FlatteningRefinesPlainWrites | include/foxy/experimental/core/impl/flat_stream.ipp:209-253 | complete runs send the same bytes whatever the limit, 0 (no flattening) included, and whatever the answers |
| GreedyWrites.RunMakesWrites | include/foxy/experimental/core/impl/flat_stream.ipp:243-252 | a next layer that takes everything sees one write for each greedy prefix |
| GreedyWrites.StaysAhead | include/foxy/experimental/core/detail/flat_stream.hpp:40-53 | for what is left of any admissible split, greedy needs no more writes than the split has groups |
| GreedyWrites.GreedyIsOptimal | include/foxy/experimental/core/detail/flat_stream.hpp:31-57 | the caller's loop makes no more writes than any split into consecutive groups that are single buffers or total at most the limit |
| GreedyWrites.GreedySplit | include/foxy/experimental/core/detail/flat_stream.hpp:31-57 | without empty buffers some admissible split has exactly as many groups, so the bound is attained |
| GreedyWrites.PairExceedsLimit | include/foxy/experimental/core/detail/flat_stream.hpp:48-50 | two consecutive full writes carry more than the limit together |
| GreedyWrites.PairsFitTotal | include/foxy/experimental/core/detail/flat_stream.hpp:39-53 | half the number of full writes, rounded down, times one more than the limit is at most the number of bytes sent |
| GreedyWrites.CallCountBound | include/foxy/experimental/core/detail/flat_stream.hpp:39-53 | sending t bytes in full writes takes at most 2 * (t / (limit + 1)) + 1 calls |
| AsyncWrites.Allocator.Deallocate | include/foxy/experimental/core/impl/flat_stream.ipp:45-49 | only a live block may be freed, with the size it was allocated with; every call in the model meets this |
| AsyncWrites.WriteOp.Begin | include/foxy/experimental/core/impl/flat_stream.ipp:123-146 | the first entry offers the same bytes as the synchronous write and allocates exactly when it flattens, with the deleter's size set to match |
| AsyncWrites.WriteOp.Resume | include/foxy/experimental/core/impl/flat_stream.ipp:147-148 | the second entry frees the block with that size, then runs the handler with the completion's own outcome |
| AsyncWrites.AsyncStream.AsyncWriteSome | include/foxy/experimental/core/impl/flat_stream.ipp:262-277 | starting a write adds its beginning to the log and one waiting operation, and keeps the whole invariant, offered bytes of all others included |
| AsyncWrites.AsyncStream.Complete | include/foxy/experimental/core/impl/flat_stream.ipp:147-148 | completing any waiting operation adds its ending to the log and removes it, and keeps the invariant |
| AsyncWrites.WriteOp.Destroy | include/foxy/experimental/core/impl/flat_stream.ipp:34-50 | destroying an operation that was never resumed frees its block with the recorded size and runs no handler |
| AsyncWrites.AsyncStream.Abandon | include/foxy/experimental/core/impl/flat_stream.ipp:34-50 | destroying any waiting operation adds that ending to the log and removes it, and keeps the invariant |
| AsyncWrites.AsyncStream.Interleave | include/foxy/experimental/core/impl/flat_stream.ipp:121-149 | after every interleaving of starts, completions and destructions the invariant holds, and requests, outcomes and log are those of the script played action by action |
| AsyncWrites.FirstDecisionStands | include/foxy/experimental/core/impl/flat_stream.ipp:121-149 | in every interleaving a write has the outcome of the first action that concerns it after its start, and waits if there is none |
| AsyncWrites.ConsistentBegin | include/foxy/experimental/core/impl/flat_stream.ipp:128-138 | starting an operation preserves the bookkeeping of all operations, blocks and events |
| AsyncWrites.ConsistentEnd | include/foxy/experimental/core/impl/flat_stream.ipp:147-148 | so does finishing one, and the block it frees is live, of the recorded size and its own |
| AsyncWrites.LedgerBalances | include/foxy/experimental/core/impl/flat_stream.ipp:34-50 | live bytes are those of waiting flattened writes and nothing else; when none waits none is live and every handler has run but those of destroyed writes |
| WriteLog.OrderlyBegin | include/foxy/experimental/core/impl/flat_stream.ipp:123-146 | in any interleaving, starting one operation leaves the histories of all others as they should be |
| WriteLog.OrderlyEnd | include/foxy/experimental/core/impl/flat_stream.ipp:147-148 | so does finishing one |
| WriteLog.FreedOnceAfterCompletion | include/foxy/experimental/core/impl/flat_stream.ipp:147 | a block is freed once, with its allocated size, after the next layer has completed or destroyed its write, and before the handler |
| WriteLog.FreedIffDecided | include/foxy/experimental/core/impl/flat_stream.ipp:34-50 | a block that was allocated has been freed if and only if its write was completed or destroyed, and the log says which of these as the outcome does |
| WriteLog.OfferedFromOwnBlock | include/foxy/experimental/core/impl/flat_stream.ipp:123-146 | an offer is a prefix of the write's own bytes and, unless it is the first buffer, comes from a block of just that size, within the limit, allocated before; nothing but that allocation precedes it |
| WriteLog.HandledOnceAfterFree | include/foxy/experimental/core/impl/flat_stream.ipp:147-148 | a handler runs once, with its own write's outcome, after its block was freed |
| WriteLog.HandledIffFinished | include/foxy/experimental/core/impl/flat_stream.ipp:148 | a handler has run with an outcome if and only if the next layer completed the write with it |
| OptionScanner.ScanIsDeclarative | include/foxy/partition.hpp:37-52 | for every string the parser yields the list elements from the first that is not empty up to the next that is |
| OptionScanner.ElementsJoined | include/foxy/partition.hpp:37-52 | the list elements have no comma, and put together again with commas they are the string without its blanks, tabs, line feeds, vertical tabs, form feeds and carriage returns, no other character lost, added or moved |
| OptionScanner.ScanIgnoresSpace | include/foxy/partition.hpp:47-52 | putting one of those six characters in anywhere, or leaving it out, changes nothing |
| OptionScanner.ScanOption | include/foxy/partition.hpp:37 | a string of any other characters but the comma is one option as it stands |
| OptionScanner.ScanAfterBlank | include/foxy/partition.hpp:47-52 | the value "a, b" yields a and b |
| OptionScanner.OptionRuleTakesElement | include/foxy/partition.hpp:37-51 | the option rule takes exactly the first list element, spaces deleted, and fails exactly when that is empty |
| OptionScanner.MoreOptionsTakeUntilEmpty | include/foxy/partition.hpp:50-51 | the repeated comma and option take the elements up to the first empty one |
| OptionScanner.CommasDropEmpty | include/foxy/partition.hpp:50 | the leading commas drop exactly the empty elements in front |
| OptionScanner.ScanFindsAllOptionsExactly | include/foxy/partition.hpp:41-52 | the options found are the first ones of the list grammar, and all of them if and only if no empty element stands between two others |
| OptionScanner.ScanMissesBehindGap | include/foxy/partition.hpp:41-52 | the options of the list grammar are those found and, behind them, those after the first gap |
| OptionScanner.ScanMissesAfterGap | include/foxy/partition.hpp:41-52 | a value for which an option is missed |
| OptionScanner.ScanPrinted | include/foxy/partition.hpp:37-52 | printing options with leading empty elements, spaces around them and trailing text, and scanning that, gives them back |
| HeaderFields.LowerSame | include/foxy/partition.hpp:65-72 | two names are the same if and only if they have the same length and at each place the same character or the same ASCII letter in upper and lower case |
| HeaderFields.InsertedPlace | include/foxy/partition.hpp:67 | a field goes behind the last one of its name, or to the end if there is none |
| HeaderFields.ValuesInserted | include/foxy/partition.hpp:67 | inserting appends to the values of the field's own name, case aside, and to no others |
| HeaderFields.ValuesFiltered | include/foxy/partition.hpp:71-72 | erasing names removes all their values and keeps those of all others in order |
| HeaderFields.FilteredByFields | include/foxy/partition.hpp:71-72 | erasing decides field by field, so all that stays keeps its order, across names too |
| Partition.MoveConnections | include/foxy/partition.hpp:29-55 | the first loop collects the options of all Connection values that are not empty and copies those values |
| Partition.CopyNominated | include/foxy/partition.hpp:60-69 | the second loop copies, option by option, the fields of that name under the option's spelling; `PartitionAppends` says in which order they then stand |
| Partition.EraseNominated | include/foxy/partition.hpp:71-72 | the erasures leave the order-preserving filter of the container |
| Partition.PartitionConnectionOptions | include/foxy/partition.hpp:23-73 | the incoming container becomes its filter without hop-by-hop names, the outgoing one gains the moved fields |
| Partition.OutValues | include/foxy/partition.hpp:31-69 | for every name, what the outgoing container gains, in order and with repetitions, with no side condition |
| Partition.InValues | include/foxy/partition.hpp:71-72 | for every name the incoming container keeps all values or none |
| Partition.OutMultiplicity | include/foxy/partition.hpp:33-69 | exact count of every name and value, duplicate and self-naming options included |
| Partition.LosslessExactly | include/foxy/partition.hpp:60-72 | a name is conserved in order across both containers if and only if it is absent or nominated at most once |
| Partition.ConnectionLosesEmptyExactly | include/foxy/partition.hpp:31-55 | Connection keeps all but its empty values if and only if no option nominates it |
| Partition.NonEmptyByValues | include/foxy/partition.hpp:33 | the values kept are all but the empty ones, in order |
| Partition.DistinctIsLossless | include/foxy/partition.hpp:31-72 | distinct options none of which is Connection make the partition lossless for every name |
| Partition.PartitionIsIdempotent | include/foxy/partition.hpp:29-73 | a second run changes neither container |
| Partition.PartitionKeepsOthers | include/foxy/partition.hpp:31-69 | what the outgoing container held of end-to-end names keeps its values and their order; only hop-by-hop fields are added between them |
| Partition.PartitionKeepsGrouped | include/foxy/partition.hpp:31-72 | both containers still hold the fields of one name together after all three loops |
| Partition.PartitionAppends | include/foxy/partition.hpp:29-69 | with distinct options other than Connection, whose fields the outgoing container does not hold yet, it gains the non-empty Connection fields and then, option by option in the option's spelling, the values of that name in order |
| Partition.PartitionsAnySpelling | include/foxy/partition.hpp:29-72 | one header whose fields are named in other spellings and another order than the options, and both containers afterwards |
| Partition.DuplicateNominationDuplicates | include/foxy/partition.hpp:60-69 | a header whose field is copied twice |
| Partition.SelfNominationDuplicates | include/foxy/partition.hpp:31-69 | a Connection field that names Connection and is sent on twice |
| Tunnel.ForwardOne | src/forward_proxy.cpp:145-192 | one turn receives a header and hands its filter to the write, through the serializer that refers to the parser's message |
| Tunnel.Tunnel | src/forward_proxy.cpp:135-193 | in any number of turns, the headers handed to the write are those received without their hop-by-hop fields, in order |
| Tunnel.HeadersOfMessages | src/forward_proxy.cpp:135-193 | after any number of whole messages, each read, written and, unless complete, its body read to the end or to a full buffer, the tunnel has received exactly their headers and goes on with what follows |
| Tunnel.HeadersWhereItBreaks | src/forward_proxy.cpp:153-180 | the first other completion ends it, with no header if that one was not read and otherwise with this header as the last |
| Tunnel.MessagesAndBreak | src/forward_proxy.cpp:135-193 | every script is some whole messages and a part that breaks off, so these are all the headers there are |
| Tunnel.FullBufferGoesOn | src/forward_proxy.cpp:177-180 | a full body buffer does not keep the next header from going on |
| Tunnel.EndToEndValues | src/forward_proxy.cpp:159-163 | a forwarded header has no value of Connection or a found option and every value of all other names; without gaps it has none of a listed option |
| Tunnel.ListedOptionsFoundExactly | include/foxy/partition.hpp:41-52 | over all Connection values, all options of the list grammar are found if and only if no value has a gap |
| Tunnel.ListedOptionsRemovedExactly | src/forward_proxy.cpp:159-163 | a forwarded header is free of all listed options if and only if every option behind a gap is absent, Connection, or named by another option |
| Tunnel.ForwardsBehindGap | src/forward_proxy.cpp:159-163 | a header whose listed field is forwarded |
| Target.ParseIsMeaning | src/forward_proxy.cpp:103-106 | for every target, host is the longest colon-free prefix and port the longest digit run behind the colon that ends a non-empty host, or empty; no other pair is |
| Target.ParsePrinted | src/forward_proxy.cpp:97-106 | printing host and port and parsing gives them back |
| Target.ParseStopsBehindDigits | src/forward_proxy.cpp:103-106 | what stands behind the digits of the port is dropped |
| Target.PortDigits | src/forward_proxy.cpp:105 | a character belongs to the port if and only if it is one of 0123456789 |
| Target.ParseDigits | src/forward_proxy.cpp:103-106 | a port of all digits, and one that a letter ends |
| Target.ParseTakesWholeExactly | src/forward_proxy.cpp:103-106 | the parse stands for the whole target if and only if that is empty, a host without a colon, or one followed by a first colon and then digits up to the end |
| Target.ParseCutsAddress | src/forward_proxy.cpp:103-106 | an IPv6 address and port, of which the parse keeps one bracket |
| Connect.ClientSession.AsyncConnect | include/foxy/impl/client_session.impl.hpp:41-100 | the operation runs the stages of its kind of session in order, for every environment |
| Connect.PostsExactly | include/foxy/impl/client_session.impl.hpp:50-99 | from the fields of the completions alone: if all are successes the endpoint is posted without an error; the first that is not has its error posted with no endpoint, and no stage starts and no completion is used after it; and otherwise the operation waits |
| Connect.ToIntMeaning | include/foxy/impl/client_session.impl.hpp:56 | the posted number of a refused name is the 32-bit signed integer that differs from the library's by a multiple of 2^32 |
| Connect.RunStagesOutcome | include/foxy/impl/client_session.impl.hpp:50-99 | no stage starts after a failure; the handler is posted exactly once and last, with the first failing stage's error and no endpoint, or without error and with the connected endpoint |
| Connect.ReportsSuccessExactly | include/foxy/impl/client_session.impl.hpp:50-99 | success is reported if and only if the name was accepted (with TLS) and every error code is zero, then with the endpoint of the TCP completion, or the name was refused with a number divisible by 2^32 |
| Connect.SuccessWithoutConnection | include/foxy/impl/client_session.impl.hpp:51-61 | a refused server name with error number zero posts success with no endpoint, before any other stage |
| Connect.RefusedWithZero | include/foxy/impl/client_session.impl.hpp:51-61 | one such completion |
| Negotiation.Handler.Serve | src/forward_proxy.cpp:64-131 | a request is refused, or connected for and answered, and the shared error code is the last completion's |
| Negotiation.Handler.Init | src/forward_proxy.cpp:45-132 | the loop's trace, error code and exit are those of the run of its turns, for every environment |
| NegotiationScript.RespondsInOrder | src/forward_proxy.cpp:45-132 | attempted responses answer the requests read, in order and one each: 405 to every other method, whatever its persistence; the persistence 400 exactly to CONNECT without it; else 200 or the other 400 as the post carries no error or one. The persistence 400 and the 200 come last |
| NegotiationScript.ReturnsExactly | src/forward_proxy.cpp:45-132 | the loop has returned if and only if the last event is a failed read or the end of writing the persistence 400 or the 200, whose error is the shared error code; it waits only where the script has ended |
| NegotiationScript.RunRecorded | src/forward_proxy.cpp:45-132 | the trace records every completion used, in order and as its fields have it, and what is left of the script follows them |
| NegotiationScript.ResponsesByScript | src/forward_proxy.cpp:64-131 | each attempted response is what the completions from the request on call for: a 200 only if all that the connect operation needs are successes (the name exception aside), the other 400 only if one of them is not |
| NegotiationTrace.TunnelExactly | src/forward_proxy.cpp:80-131 | the tunnel is entered if and only if the last event is the successful write of the 200 or of the persistence 400; the last request was then a CONNECT request, and it was the 200 if and only if that asked for persistence |
| NegotiationTrace.ConnectedExactly | src/forward_proxy.cpp:45-132 | with or without TLS, a run that enters the tunnel has a session ready for use if and only if the last request asked for persistence and the server name was not refused with error number zero |
| NegotiationTrace.PlainConnectedExactly | src/forward_proxy.cpp:206-212 | for the proxy's own session, a run that enters the tunnel has a TCP connection if and only if the last request asked for persistence; no earlier turn leaves one behind |
| NegotiationTrace.TunnelAfterNameFailure | include/foxy/impl/client_session.impl.hpp:51-61 | a TLS run that answers 200, enters the tunnel and never connects |
| NegotiationTrace.TunnelWithoutConnection | src/forward_proxy.cpp:209-212 | a run that enters the tunnel and never connects |
| NegotiationTrace.EstablishedAfterSuccess | src/forward_proxy.cpp:108-131 | every attempted 200 directly follows a connect operation on the host and port of the request just read whose stages all succeeded in order, the name exception aside |
| NegotiationTrace.ConnectsOnlyForPersistentConnect | src/forward_proxy.cpp:64-109 | a stage is started only for a persistent CONNECT request, the last one read, on its parsed host and port |
| ProxySession.HandleRequest | src/forward_proxy.cpp:195-215 | the tunnel runs exactly when the negotiation returned without error, on what the environment does next; if anything is forwarded, the last response was written successfully, the last request was a CONNECT request, and a remote host is connected if and only if that asked for persistence |

## Left out

- Sockets, name resolution, TLS, executors and strands: their outcomes are the environment's choices.
- Reads and teardown of `flat_stream`, all of `ssl_stream`, `multi_stream` and `server_session`: they forward calls.
- The read and write operations of a session: each is one awaited step of the model.
- `async_request` and `async_ssl_shutdown` of the client session: the same awaiting and posting with fewer stages.
- The body that `tunnel` reads: the code does not pass it on, so only the outcome of reading it is modelled.
- Closing the session after the tunnel, and the state of the client's socket between two attempts to connect: both concern the sockets alone.
- The accept loop of the proxy: it only starts handlers.
- The header container: Boost is not part of this model. It is modelled by what the code needs of it: names compare without ASCII case, equal names are visited in insertion order, insertion goes behind the last field of the name, erasure removes all of a name.
- The parser combinators: each is modelled as a function that skips ASCII space first, where the grammar is run with a skipper, and gives up without consuming where it does not match.
- Allocation failures and exceptions thrown by the next layer's initiating function.
- Handlers that start new writes while they run are covered as starts that follow the completion.
- The categories of error codes: a code whose number is zero counts as success in any category, as it does in the original's tests.
- Response texts: a response is modelled by its status.
- FlatWrites.FlatStream.WriteAll: asks that no buffer exceeds the largest 64-bit size less 16 KiB, because beyond that the wrapped sum can offer zero bytes for ever (`StallsForEver`); `StallsExactly` describes those inputs, and a single write needs no such condition.
- Partition.PartitionConnectionOptions: asks for two different containers, because the loops of the original insert into one while they iterate over the other.
