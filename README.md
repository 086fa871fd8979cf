# Destination sets and Prometheus writers

This project models two parts of a service-mesh proxy and proves properties
of them in Dafny.

**Destination sets.** A `DestinationSet` holds what the proxy knows about one
name it resolves through the Destination service:
- whether the name exists (`Unknown`, `No`, or `Yes` with a cache of
  endpoints, each an address with its metadata);
- the state of the streaming query (connected, needs reconnect, or none);
- the responders that receive `Add`, `Remove` and `NoEndpoints` updates.

Polling the query applies each ready message (an add set, a remove set, or
"no endpoints") until the stream is not ready, ends, or fails. Every change
the cache reports is sent to every responder. A responder whose channel is
closed is dropped. The protobuf decoders turn an IPv4 `u32` or an IPv6 pair
of `u64` into octets and a 16-bit port. They merge set-level and
per-address labels into a key-sorted map in which the per-address value wins.

**Prometheus writers.** The text exposition format is written through a
`fmt::Formatter`:
- a metric's `# HELP` and `# TYPE` lines;
- one labeled sample per scope;
- label lists, where a pair is joined with a comma and an absent optional
  half adds neither labels nor comma;
- blocks of metrics, where `AndThen` writes one block after another and `()`
  writes nothing.

Every writer stops at the first refused write.

How the model is built:
- The destination set is a class, `Destination.DestinationSet`, with the
  fields `addrs`, `query` and `responders`. Each method is proved equal to a
  function on values (`Added`, `Removed`, `NoEndpointsApplied`,
  `QueryPolled`, `DstPolled`, …). The lemmas in `DestinationLaws` state what
  those functions mean.
- The formatter is a class, `Prom.Formatter`, with an output buffer and a
  capacity. Each writer is proved equal to `Prom.Run` over the list of writes
  it issues, and lemmas state what that output is.
- An `IndexMap` is a list of key–value pairs in insertion order (`IndexMaps`).
  Rust's stable `sort_by` is modelled by a stable insertion sort; every
  stable sort gives the same result. String order is lexicographic by
  character (`LabelMerge`).
- The cache's source is not part of this model. Its behaviour is assumed:
  - an insertion for a new address;
  - a modification for a known address whose metadata changes;
  - nothing for a known address whose metadata is unchanged;
  - a removal for each dropped address;
  - on `clear`, one removal per cached address, in cache order;
  - entries stay in insertion order, and a removal keeps the order of the
    rest (so `add_responder` replays, and `clear` removes, in that order).

## Model

| member | source | states |
|---|---|---|
| DestinationProto.PbToSockAddr | src/control/destination/background/destination_set.rs:308-358 | none exactly when the outer or inner `ip` is absent; otherwise the port is the protobuf port truncated to `u16`, and the octets read back big-endian give the IPv4 `u32`, or `first` then `last` for IPv6 |
| DestinationProto.AsU16Low | src/control/destination/background/destination_set.rs:330 | the truncated port keeps exactly the low 16 bits of `pb.port` |
| DestinationProto.Ipv4RoundTrip | src/control/destination/background/destination_set.rs:328-330 | `Ipv4Addr::from(u32)` gives four octets, most significant first, whose big-endian value is the input |
| DestinationProto.Ipv6RoundTrip | src/control/destination/background/destination_set.rs:332-351 | the 16 octets are the 8 big-endian bytes of `first` followed by the 8 of `last` |
| DestinationProto.PbToId | src/control/destination/background/destination_set.rs:295-306 | an identity exactly when a strategy is present and its name is a valid hostname; it is that name |
| DestinationProto.PbToAddrMeta | src/control/destination/background/destination_set.rs:258-293 | none iff the address is missing or undecodable; otherwise the decoded address and weight, labels with strictly ascending keys whose map is the set labels overridden by the address labels, an `Http2` hint iff the hint names a protocol, and a TLS identity iff one is present and valid |
| DestinationProto.MergedLabelsIgnoreIterationOrder | src/control/destination/background/destination_set.rs:264-268 | the merged labels depend only on the two label maps, not on the order in which the hash maps are iterated |
| LabelMerge.SortByKeySpec | src/control/destination/background/destination_set.rs:269 | the stable sort by key is a permutation of its input (same multiset), yields keys in non-decreasing order, and keeps the last-wins label map |
| LabelMerge.InsertByKeySorted | src/control/destination/background/destination_set.rs:269 | one insertion step keeps a list sorted by key |
| LabelMerge.InsertByKeyToMap | src/control/destination/background/destination_set.rs:269 | an element inserted after all equal keys wins over them in the label map |
| LabelMerge.InsertByKey | src/control/destination/background/destination_set.rs:269 | inserting adds exactly one element and keeps every other one, with multiplicity (the multiset gains exactly `e`) |
| LabelMerge.KeyLeTotal | src/control/destination/background/destination_set.rs:269 | `String` comparison is total |
| LabelMerge.KeyLeTrans | src/control/destination/background/destination_set.rs:269 | `String` comparison is transitive |
| LabelMerge.KeyLeAntisym | src/control/destination/background/destination_set.rs:269 | `String` comparison is antisymmetric |
| LabelMerge.KeyLeRefl | src/control/destination/background/destination_set.rs:269 | `String` comparison is reflexive |
| LabelMerge.CollectMap | src/control/destination/background/destination_set.rs:271-274 | filling the `IndexMap` keeps each key once, holds exactly the input's keys, and keeps each key's last value |
| LabelMerge.CollectAscending | src/control/destination/background/destination_set.rs:271-274 | filled from input sorted by key, the map's keys strictly ascend |
| LabelMerge.MergedLabelsSpec | src/control/destination/background/destination_set.rs:264-277 | the merged labels have strictly ascending keys, and their map is the set labels overridden by the address labels |
| LabelMerge.AscendingDetermined | src/control/destination/background/destination_set.rs:264-277 | two strictly ascending label lists with the same map are equal, so the result is determined by the map |
| IndexMaps.Insert | src/control/destination/background/destination_set.rs:273 | `IndexMap::insert` keeps a known key's position and appends a new key at the end |
| IndexMaps.InsertToMap | src/control/destination/background/destination_set.rs:273 | insertion keeps keys unique and updates the key to the new value |
| IndexMaps.RemoveKey | src/control/destination/background/destination_set.rs:197-199 | removing drops exactly that key and keeps keys unique |
| IndexMaps.RemoveKeyToMap | src/control/destination/background/destination_set.rs:197-199 | removing a key removes it from the map and changes nothing else |
| EndpointCache.UnionOneSpec | src/control/destination/background/destination_set.rs:185-187 | merging one endpoint keeps addresses unique, sets its metadata, and reports at most one change |
| EndpointCache.UpdateUnionSpec | src/control/destination/background/destination_set.rs:181-188 | merging keeps addresses unique, and the cache's map is the old one overridden by the new endpoints |
| EndpointCache.UpdateUnionChanges | src/control/destination/background/destination_set.rs:185-187 | merging reports only insertions and modifications, each carrying one of the merged endpoints |
| EndpointCache.RemoveAllSpec | src/control/destination/background/destination_set.rs:195-200 | removal keeps addresses unique, drops exactly the listed addresses, and reports only removals of listed addresses |
| Destination.DestinationSet.constructor | src/control/destination/background/destination_set.rs:42-49 | a new set has `Unknown` existence, the given query, and the one responder |
| Destination.DestinationSet.PollDst | src/control/destination/background/destination_set.rs:53-72 | the new state, query and result are those of `DstPolled`; the result is true iff a connected query now needs to reconnect |
| Destination.DestinationSet.AddResponder | src/control/destination/background/destination_set.rs:76-90 | the responder is appended after receiving one `Add` per cached endpoint in cache order, or nothing unless the name is known; addrs and query are unchanged |
| Destination.DestinationSet.IsActive | src/control/destination/background/destination_set.rs:105-107 | active iff the responder list is non-empty; when the list holds no dead responder (after `retain_active`), iff some responder is alive |
| Destination.DestinationSet.KnownToExist | src/control/destination/background/destination_set.rs:161-166 | true exactly when existence is `Yes`; otherwise there are no cached endpoints to replay |
| Destination.DestinationSet.RetainActive | src/control/destination/background/destination_set.rs:99-102 | the responders become the live ones, in order |
| Destination.DestinationSet.PollQuery | src/control/destination/background/destination_set.rs:111-159 | the state and the returned query are those of `QueryPolled` on the stream's results |
| Destination.DestinationSet.ApplyUpdate | src/control/destination/background/destination_set.rs:114-131 | one stream message applied: an add set adds its decodable endpoints, a remove set removes its decodable addresses, a no-endpoints message applies `no_endpoints`, and an empty message changes nothing |
| Destination.DecodeAddSet | src/control/destination/background/destination_set.rs:116-120 | the endpoints of an add set that decode, in order |
| Destination.DestinationSet.ResetOnNextModification | src/control/destination/background/destination_set.rs:168-175 | a known cache is marked for reset; nothing else changes |
| Destination.DestinationSet.Add | src/control/destination/background/destination_set.rs:177-189 | the state becomes `Added`: the previous cache (or a new one) with the endpoints merged in, and the responders notified of each change |
| Destination.DestinationSet.Remove | src/control/destination/background/destination_set.rs:191-205 | the state becomes `Removed`: the addresses are dropped from a known cache with each change notified; otherwise the name becomes known with no endpoints |
| Destination.DestinationSet.NoEndpoints | src/control/destination/background/destination_set.rs:207-230 | the state becomes `NoEndpointsApplied`: `NoEndpoints` is sent, a known cache is cleared with each removal notified, and existence is set from the flag |
| Destination.DestinationSet.EmitChanges | src/control/destination/background/destination_set.rs:185-187 | each change the cache reports is passed to `on_change` in order |
| Destination.DestinationSet.OnChange | src/control/destination/background/destination_set.rs:232-254 | the change's update is sent and the responders that received it are kept |
| Destination.DestinationSet.SendRetain | src/control/destination/background/destination_set.rs:250-253 | `retain` with a send keeps, in order, exactly the responders the send reached |
| Destination.AliveSpec | src/control/destination/background/destination_set.rs:99-107 | `retain_active` keeps exactly the live responders and is idempotent; afterwards `is_active` (a non-empty list) holds iff some responder was alive |
| DestinationLaws.BroadcastDelivers | src/control/destination/background/destination_set.rs:250-253 | a send-and-retain leaves the live responders, in their original order, each having received the update |
| DestinationLaws.DeliveredTwice | src/control/destination/background/destination_set.rs:213-221 | two fan-outs in a row deliver both batches in order to the live responders |
| DestinationLaws.NotifiedDelivers | src/control/destination/background/destination_set.rs:232-254 | a non-empty series of cache changes reaches every live responder as one update per change, in order, and the dead responders are dropped |
| DestinationLaws.UpdateForSpec | src/control/destination/background/destination_set.rs:237-247 | an insertion or a modification becomes `Add` of its key and new value; a removal becomes `Remove` of its key |
| DestinationLaws.NoEndpointsOutcome | src/control/destination/background/destination_set.rs:207-230 | afterwards existence is `Yes(empty)` if the flag is set and `No` otherwise; the responders are the live ones, each having received `NoEndpoints` then one `Remove` per previously cached endpoint |
| DestinationLaws.NoEndpointsSurvivors | src/control/destination/background/destination_set.rs:213-229 | every responder that survives `no_endpoints` is alive and has just received `NoEndpoints` followed by the removals |
| DestinationLaws.AddedOutcome | src/control/destination/background/destination_set.rs:177-189 | after `add` the name is known to exist and the cache stays valid; its map is the previous map (empty unless `Yes`) overridden by the endpoints; the responders are unchanged or were sent only `Add`s of the given endpoints |
| DestinationLaws.RemovedOutcome | src/control/destination/background/destination_set.rs:191-205 | after `remove` the name is known to exist and the cache stays valid; a known cache loses exactly the listed addresses and the responders get only `Remove`s of listed addresses; from `Unknown` or `No` the cache is empty and no responder is notified |
| DestinationLaws.ResetKeepsEntries | src/control/destination/background/destination_set.rs:168-175 | marking the cache for reset keeps its existence, entries and responders |
| DestinationLaws.AppliedValid | src/control/destination/background/destination_set.rs:114-131 | applying a stream message keeps each cached address unique |
| DestinationLaws.ReadyCount | src/control/destination/background/destination_set.rs:112-141 | the number of ready messages at the head of the stream: all before it are messages and the result at it is not |
| DestinationLaws.QueryPolledOutcome | src/control/destination/background/destination_set.rs:111-159 | `poll_query` applies every ready message in order, then decides by the first other result: end of stream or another error gives `NeedsReconnect`; InvalidArgument applies `no_endpoints(false)` and gives no query; not-ready keeps the stream after that point |
| DestinationLaws.QueryPolledValid | src/control/destination/background/destination_set.rs:111-159 | polling keeps each cached address unique |
| DestinationLaws.DstPolledOutcome | src/control/destination/background/destination_set.rs:53-72 | `poll_dst` returns true iff a connected query now needs to reconnect, and then the polled cache is marked for reset; with no query, a name known to exist keeps existing with no endpoints and any other name becomes `No` (`exists()` is false for `Unknown`); a query already needing to reconnect is left alone; the cache stays valid |
| DestinationLaws.NewIsValid | src/control/destination/background/destination_set.rs:42-49 | a new set meets the cache invariant |
| Prom.MaxPreciseValueIsPow53 | linkerd/metrics/src/prom.rs:4-9 | `MAX_PRECISE_VALUE` is 2^53 and fits in a `u64` |
| Prom.Run | linkerd/metrics/src/prom.rs:133-139 | a chain of writes with `?`: all succeed iff the whole text fits; then the buffer gains the whole text, otherwise a prefix of it |
| Prom.RunAppend | linkerd/metrics/src/prom.rs:174-180 | writing two series is writing the first, then the second only if the first succeeded |
| Prom.Formatter.WriteStr | linkerd/metrics/src/prom.rs:135 | a write succeeds iff it fits, and only then is it appended |
| Prom.WriteAll | linkerd/metrics/src/prom.rs:94-95 | a series of writes, stopping at the first refused one |
| Prom.FmtLabels | linkerd/metrics/src/prom.rs:126-164 | `fmt_labels` of references, pairs and optional pairs issues exactly the label writes and stops at the first refused one; on success it appends the label text |
| Prom.JoinedRun | linkerd/metrics/src/prom.rs:132-140 | a pair writes the first labels, then the comma only if they succeeded, then the second labels only if the comma succeeded |
| Prom.PairLabels | linkerd/metrics/src/prom.rs:132-140 | a pair's text is the first labels, `,`, then the second labels |
| Prom.OptionalLabels | linkerd/metrics/src/prom.rs:142-164 | an absent optional part writes neither labels nor comma; a present one writes exactly what the pair writes |
| Prom.PairShortCircuit | linkerd/metrics/src/prom.rs:134-136 | if the first part is refused, neither the comma nor the second part is written |
| Prom.LabelsRefTransparent | linkerd/metrics/src/prom.rs:126-130 | a reference writes the same labels as its referent |
| Prom.FmtMetrics | linkerd/metrics/src/prom.rs:168-187 | `fmt_metrics` of references, `AndThen` and `()` issues exactly the block's writes and stops at the first refused one; on success it appends the block's text |
| Prom.AndThenText | linkerd/metrics/src/prom.rs:174-181 | `AndThen(a, b)` writes a's text followed by b's |
| Prom.AndThenShortCircuit | linkerd/metrics/src/prom.rs:176-177 | if a is refused, nothing of b is written |
| Prom.AndThenMonoid | linkerd/metrics/src/prom.rs:174-187 | `()` writes nothing and is a left and right identity of `AndThen`, which is associative |
| Prom.MetricsRefTransparent | linkerd/metrics/src/prom.rs:168-172 | a reference writes the same block as its referent |
| Prom.LineText | linkerd/metrics/src/prom.rs:94-95 | one `writeln!` with two arguments writes the prefix, the first value, a space, the second value and a newline |
| Prom.HelpText | linkerd/metrics/src/prom.rs:93-97 | the help output is `# HELP name help` then `# TYPE name kind`, each ending in a newline |
| Prom.FmtHelp | linkerd/metrics/src/prom.rs:93-97 | `fmt_help` writes the two lines, the second only if the first was written in full; on success the buffer gains exactly that text |
| Prom.FmtScopes | linkerd/metrics/src/prom.rs:105-121 | `fmt_scopes` issues each scope's labeled sample in order and stops at the first refused write |
| Prom.ScopesStopAtFirstError | linkerd/metrics/src/prom.rs:116-118 | if the scopes before `j` are written and scope `j` is refused, the output ends within scope `j` and no later scope is written |
| Prom.ScopesInOrder | linkerd/metrics/src/prom.rs:116-120 | when everything fits, the buffer gains the first scope's sample followed by the others', in order |

## Left out

- The Destination service client is not modelled: building queries, the `reconnect` operation (destination_set.rs:94-96) and the gRPC stream are left out. The stream is a list of poll results; once the list runs out, the stream reads as not ready. `new` receives the query the client opened as a parameter.
- The `auth` and `authority_for_logging` parameters are used only for logging and the client, so they are dropped. The `trace!`, `debug!` and `warn!` calls produce no behaviour and are not modelled.
- Responder channels are values: an `alive` flag and the list of updates received. `unbounded_send` succeeds exactly when the receiver is alive. The channel's concurrency is not modelled.
- Destination.DestinationSet.AddResponder: the `expect` on sending to the new responder becomes a precondition. It requires the responder to be alive whenever there is a cached endpoint to send, so the panic path is not modelled.
- The `Cache` type's source is not part of this model. Its change reporting follows the rules listed at the top. Its `set_reset_on_next_modification` is recorded as a flag, but the flag's effect on the next update is not modelled.
- DestinationLaws.AddedOutcome: its map after `add` is the previous map overridden by the endpoints even when the reset flag is set, because the flag's effect is not modelled; the source's cache may then drop the previous entries.
- DestinationLaws.RemovedOutcome: its statement that exactly the listed addresses are dropped holds for a flagged cache only because the flag's effect is not modelled.
- EndpointCache.UpdateUnionSpec: the merge it states ignores the reset flag, because the flag's effect is not modelled.
- EndpointCache.RemoveAllSpec: the removal it states ignores the reset flag, because the flag's effect is not modelled.
- `identity::Name::from_hostname` is not part of this model. It is the parameter `isValidName`, and an identity is the name string it accepts.
- `Metadata::new` is modelled as the record itself.
- A `HashMap` of set labels is a list of its pairs in iteration order. DestinationProto.MergedLabelsIgnoreIterationOrder shows that the result does not depend on that order.
- `Metric::fmt_metric` (prom.rs:100-102) and the `Counter`, `Gauge` and `Histogram` writers are not part of this model. `fmt_metric_labeled` is the parameter `labeled`, which gives the writes of one labeled sample. Floating-point rendering is left out.
- Prom.MaxPreciseValueIsPow53 proves the value 2^53. It does not prove the claim about `f64` precision, because floating point is not modelled.
- The `fmt::Formatter` is an output buffer with a capacity. A write is refused exactly when it would overflow the capacity, and a refused write writes nothing.
- Each `writeln!` issues one write per literal piece and per argument. Each `Display` of a name, help text or kind is a single write. `f.pad(",")` is one write of `,`, with the default width and fill. Other padding flags are not modelled.
- `DisplayMetrics`, `as_display`, `and_then` and `Metric::new` only construct values. They are represented directly by the datatypes `Metrics` and `Metric`.
- Prom.Run: its statements about fitting are made only when the buffer starts within capacity. That always holds for a formatter, because writes never overflow it.
