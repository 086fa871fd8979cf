/**
 * The resolution state of one destination name (`DestinationSet`): whether
 * the name is known to exist and which endpoints it has, the Destination
 * service query that feeds it, and the responders that receive its updates.
 */
module Destination {
  import opened Wrappers
  import opened IndexMaps
  import opened LabelMerge
  import opened DestinationProto
  import opened EndpointCache

  /** An update sent to a responder. */
  datatype Update = Add(addr: SockAddr, meta: Metadata) | Remove(addr: SockAddr) | NoEndpoints

  /**
   * A responder: whether the receiving end of its channel is still alive,
   * and the updates it has been sent so far.
   */
  datatype Responder = Responder(alive: bool, received: seq<Update>)

  /** Whether the name is known to exist, and if so its endpoints. */
  datatype Exists<T> = Unknown | No | Yes(value: T)

  // ----- the Destination service stream -----

  /** The payload of one Destination service message. */
  datatype PbUpdate =
    | AddSet(metricLabels: seq<Label>, addrs: seq<WeightedAddr>)
    | RemoveSet(removed: seq<TcpAddress>)
    | NoEndpointsSet(nameExists: bool)

  datatype GrpcCode = InvalidArgument | OtherCode

  /** One result of polling the update stream. */
  datatype Poll =
    | Ready(update: Option<PbUpdate>)
    | StreamEnd
    | Failed(code: GrpcCode)
    | NotReady

  /**
   * An update stream, given by the results its successive polls return;
   * once the listed results are used up it is not ready.
   */
  datatype Rx = Rx(polls: seq<Poll>)

  /** The state of a query (`Remote`). */
  datatype Remote = ConnectedOrConnecting(rx: Rx) | NeedsReconnect

  /** The part of a destination set that updates change. */
  datatype Resolution = Resolution(addrs: Exists<Cache>, responders: seq<Responder>)

  // ----- responders -----

  /** `unbounded_send`: succeeds exactly when the receiver is alive, and then the update is delivered. */
  function Send(r: Responder, u: Update): (bool, Responder) {
    if r.alive then (true, r.(received := r.received + [u])) else (false, r)
  }

  /** `responders.retain(|r| r.update_tx.unbounded_send(u).is_ok())`. */
  function Broadcast(rs: seq<Responder>, u: Update): seq<Responder> {
    if rs == [] then []
    else
      var sent := Send(rs[|rs| - 1], u);
      Broadcast(rs[..|rs| - 1], u) + (if sent.0 then [sent.1] else [])
  }

  /** The responders whose receivers are alive, in order (`retain(Responder::is_active)`). */
  function Alive(rs: seq<Responder>): seq<Responder> {
    if rs == [] then [] else Alive(rs[..|rs| - 1]) + (if rs[|rs| - 1].alive then [rs[|rs| - 1]] else [])
  }

  lemma {:induction false} AliveOfAlive(rs: seq<Responder>)
    requires forall i :: 0 <= i < |rs| ==> rs[i].alive
    ensures Alive(rs) == rs
  {
    if rs != [] {
      var init := rs[..|rs| - 1];
      AliveOfAlive(init);
      assert rs == init + [rs[|rs| - 1]];
    }
  }

  /**
   * `retain_active` keeps exactly the live responders, is idempotent, and
   * leaves the set active exactly when some responder was alive.
   */
  lemma {:induction false} AliveSpec(rs: seq<Responder>)
    ensures forall r :: r in Alive(rs) <==> r in rs && r.alive
    ensures Alive(Alive(rs)) == Alive(rs)
    ensures |Alive(rs)| > 0 <==> exists r :: r in rs && r.alive
  {
    if rs != [] {
      var init, last := rs[..|rs| - 1], rs[|rs| - 1];
      assert rs == init + [last];
      AliveSpec(init);
    }
    AliveOfAlive(Alive(rs));
    if |Alive(rs)| > 0 {
      assert Alive(rs)[0] in Alive(rs);
    }
  }

  /** Every responder with `us` appended to what it has received. */
  function AppendAll(rs: seq<Responder>, us: seq<Update>): (r: seq<Responder>)
    ensures |r| == |rs|
  {
    seq(|rs|, i requires 0 <= i < |rs| => rs[i].(received := rs[i].received + us))
  }

  /** Reference definition of a fan-out: the live responders, in order, each having received `us`. */
  function Delivered(rs: seq<Responder>, us: seq<Update>): seq<Responder> {
    AppendAll(Alive(rs), us)
  }

  /** `on_change`: an insertion or modification becomes `Add`, a removal becomes `Remove`. */
  function UpdateFor(change: CacheChange): Update {
    match change
    case Insertion(key, value) => Add(key, value)
    case Removal(key) => Remove(key)
    case Modification(key, newValue) => Add(key, newValue)
  }

  function UpdatesFor(changes: seq<CacheChange>): (us: seq<Update>)
    ensures |us| == |changes|
  {
    seq(|changes|, i requires 0 <= i < |changes| => UpdateFor(changes[i]))
  }

  /** `on_change` applied to each change the cache reports, in order. */
  function Notified(rs: seq<Responder>, changes: seq<CacheChange>): seq<Responder> {
    if changes == [] then rs
    else Broadcast(Notified(rs, changes[..|changes| - 1]), UpdateFor(changes[|changes| - 1]))
  }

  /** One `Add` per cached endpoint, in cache order. */
  function CachedUpdates(addrs: Exists<Cache>): seq<Update> {
    if addrs.Yes? then
      seq(|addrs.value.entries|, i requires 0 <= i < |addrs.value.entries| =>
        Add(addrs.value.entries[i].0, addrs.value.entries[i].1))
    else []
  }

  /** One `Remove` per cached endpoint, in cache order. */
  function CachedRemovals(addrs: Exists<Cache>): seq<Update> {
    if addrs.Yes? then
      seq(|addrs.value.entries|, i requires 0 <= i < |addrs.value.entries| => Remove(addrs.value.entries[i].0))
    else []
  }

  // ----- what each operation does to a resolution -----

  /** `add`: the cache (a fresh one unless the name is known to exist) absorbs the endpoints. */
  function Added(s: Resolution, adds: seq<(SockAddr, Metadata)>): Resolution {
    var cache := if s.addrs.Yes? then s.addrs.value else Empty;
    var merged := UpdateUnion(cache, adds);
    Resolution(Yes(merged.0), Notified(s.responders, merged.1))
  }

  /** `remove`: drops the addresses from a known cache; otherwise starts an empty one. */
  function Removed(s: Resolution, keys: seq<SockAddr>): Resolution {
    if s.addrs.Yes? then
      var dropped := RemoveAll(s.addrs.value, keys);
      Resolution(Yes(dropped.0), Notified(s.responders, dropped.1))
    else Resolution(Yes(Empty), s.responders)
  }

  /** `no_endpoints`: tells every responder, clears a known cache, then records whether the name exists. */
  function NoEndpointsApplied(s: Resolution, nameExists: bool): Resolution {
    var told := Broadcast(s.responders, NoEndpoints);
    var cleared := if s.addrs.Yes? then Notified(told, ClearChanges(s.addrs.value)) else told;
    Resolution(if nameExists then Yes(Empty) else No, cleared)
  }

  /** `reset_on_next_modification`: marks a known cache. */
  function ResetApplied(s: Resolution): Resolution {
    if s.addrs.Yes? then s.(addrs := Yes(SetResetOnNextModification(s.addrs.value))) else s
  }

  /** The endpoints of an `Add` message that decode (`filter_map(pb_to_addr_meta)`). */
  function AddSetEntries(labels: seq<Label>, addrs: seq<WeightedAddr>, isValidName: string -> bool)
    : seq<(SockAddr, Metadata)>
  {
    if addrs == [] then []
    else
      var decoded := AddrMeta(addrs[|addrs| - 1], labels, isValidName);
      AddSetEntries(labels, addrs[..|addrs| - 1], isValidName) + (if decoded.Some? then [decoded.value] else [])
  }

  /** The addresses of a `Remove` message that decode (`filter_map(pb_to_sock_addr)`). */
  function RemoveSetKeys(addrs: seq<TcpAddress>): seq<SockAddr> {
    if addrs == [] then []
    else
      var decoded := PbToSockAddr(addrs[|addrs| - 1]);
      RemoveSetKeys(addrs[..|addrs| - 1]) + (if decoded.Some? then [decoded.value] else [])
  }

  /** One message of the stream applied to a resolution. */
  function Applied(s: Resolution, u: Option<PbUpdate>, isValidName: string -> bool): Resolution {
    match u
    case None => s
    case Some(AddSet(labels, addrs)) => Added(s, AddSetEntries(labels, addrs, isValidName))
    case Some(RemoveSet(addrs)) => Removed(s, RemoveSetKeys(addrs))
    case Some(NoEndpointsSet(nameExists)) => NoEndpointsApplied(s, nameExists)
  }

  /** `poll_query`: the resolution after draining the ready messages, and the query that follows. */
  function QueryPolled(s: Resolution, polls: seq<Poll>, isValidName: string -> bool): (Resolution, Option<Remote>)
    decreases |polls|
  {
    if polls == [] then (s, Some(ConnectedOrConnecting(Rx([]))))
    else
      match polls[0]
      case Ready(u) => QueryPolled(Applied(s, u, isValidName), polls[1..], isValidName)
      case StreamEnd => (s, Some(NeedsReconnect))
      case NotReady => (s, Some(ConnectedOrConnecting(Rx(polls[1..]))))
      case Failed(InvalidArgument) => (NoEndpointsApplied(s, false), None)
      case Failed(OtherCode) => (s, Some(NeedsReconnect))
  }

  /** `poll_dst`: the new resolution, the new query, and whether the set must be queued to reconnect. */
  function DstPolled(s: Resolution, query: Option<Remote>, isValidName: string -> bool)
    : (Resolution, Option<Remote>, bool)
  {
    match query
    case Some(ConnectedOrConnecting(rx)) =>
      var polled := QueryPolled(s, rx.polls, isValidName);
      if polled.1 == Some(NeedsReconnect) then (ResetApplied(polled.0), polled.1, true)
      else (polled.0, polled.1, false)
    case None => (NoEndpointsApplied(s, s.addrs.Yes?), None, false)
    case Some(NeedsReconnect) => (s, query, false)
  }

  /** The cache invariant of a resolution: a known cache holds each address once. */
  predicate ValidResolution(s: Resolution) {
    s.addrs.Yes? ==> Valid(s.addrs.value)
  }

  /** `add_responder`'s `expect`: a send to the new responder cannot fail when there is something to send. */
  predicate CanAddResponder(addrs: Exists<Cache>, responder: Responder) {
    CachedUpdates(addrs) != [] ==> responder.alive
  }

  /** The state of one resolution, updated in place. */
  class DestinationSet {
    var addrs: Exists<Cache>
    var query: Option<Remote>
    var responders: seq<Responder>
    /** `identity::Name::from_hostname` accepting a name (not part of this model). */
    const isValidName: string -> bool

    function Current(): Resolution
      reads this
    {
      Resolution(addrs, responders)
    }

    /** `DestinationSet::new`, given the query the client opened for the name. */
    constructor (responder: Responder, query: Option<Remote>, isValidName: string -> bool)
      ensures addrs == Exists.Unknown && this.query == query && responders == [responder]
      ensures this.isValidName == isValidName
    {
      addrs := Exists.Unknown;
      this.query := query;
      responders := [responder];
      this.isValidName := isValidName;
    }

    /** `poll_dst`: drives the query; true exactly when a connected query now needs to reconnect. */
    method PollDst() returns (needsReconnect: bool)
      modifies this
      ensures (Current(), query, needsReconnect) == DstPolled(old(Current()), old(query), isValidName)
      ensures needsReconnect <==>
        old(query).Some? && old(query).value.ConnectedOrConnecting? && query == Some(NeedsReconnect)
    {
      needsReconnect := false;
      var taken := query;
      query := None;
      match taken
      case Some(ConnectedOrConnecting(rx)) =>
        var newQuery := PollQuery(rx);
        if newQuery == Some(NeedsReconnect) {
          ResetOnNextModification();
          needsReconnect := true;
        }
        query := newQuery;
      case None =>
        var nameExists := KnownToExist();
        NoEndpoints(nameExists);
        query := None;
      case Some(NeedsReconnect) =>
        query := taken;
    }

    /** `add_responder`: replays the cached endpoints to the new responder, then appends it. */
    method AddResponder(responder: Responder)
      requires CanAddResponder(addrs, responder)
      modifies this
      ensures responders == old(responders) + [responder.(received := responder.received + CachedUpdates(old(addrs)))]
      ensures addrs == old(addrs) && query == old(query)
    {
      var r := responder;
      if addrs.Yes? {
        var entries := addrs.value.entries;
        var i := 0;
        while i < |entries|
          invariant 0 <= i <= |entries|
          invariant r == responder.(received := responder.received + CachedUpdates(addrs)[..i])
        {
          var sent := Send(r, Update.Add(entries[i].0, entries[i].1));
          assert sent.0;
          assert CachedUpdates(addrs)[..i + 1] == CachedUpdates(addrs)[..i] + [Update.Add(entries[i].0, entries[i].1)];
          r := sent.1;
          i := i + 1;
        }
        assert CachedUpdates(addrs)[..i] == CachedUpdates(addrs);
      } else {
        assert r.received + CachedUpdates(addrs) == r.received;
      }
      responders := responders + [r];
    }

    /** `retain_active`: drops the responders whose receivers are gone. */
    method RetainActive()
      modifies this
      ensures responders == Alive(old(responders))
      ensures addrs == old(addrs) && query == old(query)
    {
      responders := Alive(responders);
    }

    /**
     * `is_active`: some responder remains; once the dead ones are dropped
     * (`retain_active`), exactly when some responder is alive.
     */
    function IsActive(): (r: bool)
      reads this
      ensures r <==> responders != []
      ensures responders == Alive(responders) ==> (r <==> exists x :: x in responders && x.alive)
    {
      AliveSpec(responders);
      |responders| > 0
    }

    /** `exists`: the name is known to exist, so only then are there cached endpoints to replay. */
    function KnownToExist(): (r: bool)
      reads this
      ensures r <==> addrs.Yes?
      ensures !r ==> CachedUpdates(addrs) == []
    {
      addrs.Yes?
    }

    /** `poll_query`: applies the ready messages in order and returns the query that follows. */
    method PollQuery(rx: Rx) returns (next: Option<Remote>)
      modifies this
      ensures (Current(), next) == QueryPolled(old(Current()), rx.polls, isValidName)
      ensures query == old(query)
    {
      var polls := rx.polls;
      while polls != []
        invariant QueryPolled(Current(), polls, isValidName) == QueryPolled(old(Current()), rx.polls, isValidName)
        invariant query == old(query)
        decreases |polls|
      {
        match polls[0]
        case Ready(u) =>
          ApplyUpdate(u);
          polls := polls[1..];
        case StreamEnd =>
          return Some(NeedsReconnect);
        case NotReady =>
          return Some(ConnectedOrConnecting(Rx(polls[1..])));
        case Failed(code) =>
          if code == InvalidArgument {
            NoEndpoints(false);
            return None;
          }
          return Some(NeedsReconnect);
      }
      return Some(ConnectedOrConnecting(Rx(polls)));
    }

    /** The body of `poll_query`'s loop for one ready message. */
    method ApplyUpdate(u: Option<PbUpdate>)
      modifies this
      ensures Current() == Applied(old(Current()), u, isValidName)
      ensures query == old(query)
    {
      match u
      case Some(AddSet(labels, pbAddrs)) =>
        var entries := DecodeAddSet(labels, pbAddrs, isValidName);
        Add(entries);
      case Some(RemoveSet(pbAddrs)) =>
        Remove(RemoveSetKeys(pbAddrs));
      case Some(NoEndpointsSet(nameExists)) =>
        NoEndpoints(nameExists);
      case None =>
    }

    /** `reset_on_next_modification`. */
    method ResetOnNextModification()
      modifies this
      ensures Current() == ResetApplied(old(Current()))
      ensures query == old(query)
    {
      if addrs.Yes? {
        addrs := Yes(SetResetOnNextModification(addrs.value));
      }
    }

    /** `add`. */
    method Add(adds: seq<(SockAddr, Metadata)>)
      modifies this
      ensures Current() == Added(old(Current()), adds)
      ensures query == old(query)
    {
      var taken := addrs;
      addrs := Exists.Unknown;
      var cache := if taken.Yes? then taken.value else Empty;
      var merged := UpdateUnion(cache, adds);
      EmitChanges(merged.1);
      addrs := Yes(merged.0);
    }

    /** `remove`. */
    method Remove(keys: seq<SockAddr>)
      modifies this
      ensures Current() == Removed(old(Current()), keys)
      ensures query == old(query)
    {
      var taken := addrs;
      addrs := Exists.Unknown;
      var cache := Empty;
      if taken.Yes? {
        var dropped := RemoveAll(taken.value, keys);
        EmitChanges(dropped.1);
        cache := dropped.0;
      }
      addrs := Yes(cache);
    }

    /** `no_endpoints`. */
    method NoEndpoints(nameExists: bool)
      modifies this
      ensures Current() == NoEndpointsApplied(old(Current()), nameExists)
      ensures query == old(query)
    {
      SendRetain(Update.NoEndpoints);
      var taken := addrs;
      addrs := Exists.Unknown;
      if taken.Yes? {
        EmitChanges(ClearChanges(taken.value));
      }
      addrs := if nameExists then Yes(Empty) else No;
    }

    /** The cache's change callback: `on_change` for each change, in order. */
    method EmitChanges(changes: seq<CacheChange>)
      modifies this
      ensures responders == Notified(old(responders), changes)
      ensures addrs == old(addrs) && query == old(query)
    {
      var i := 0;
      while i < |changes|
        invariant 0 <= i <= |changes|
        invariant responders == Notified(old(responders), changes[..i])
        invariant addrs == old(addrs) && query == old(query)
      {
        assert changes[..i + 1][..i] == changes[..i];
        OnChange(changes[i]);
        i := i + 1;
      }
      assert changes[..i] == changes;
    }

    /** `on_change`: sends the change's update and keeps the responders that received it. */
    method OnChange(change: CacheChange)
      modifies this
      ensures responders == Broadcast(old(responders), UpdateFor(change))
      ensures addrs == old(addrs) && query == old(query)
    {
      SendRetain(UpdateFor(change));
    }

    /** `responders.retain(|r| r.update_tx.unbounded_send(u).is_ok())`. */
    method SendRetain(u: Update)
      modifies this
      ensures responders == Broadcast(old(responders), u)
      ensures addrs == old(addrs) && query == old(query)
    {
      var kept := [];
      var i := 0;
      while i < |responders|
        invariant 0 <= i <= |responders|
        invariant kept == Broadcast(responders[..i], u)
      {
        assert responders[..i + 1][..i] == responders[..i];
        var sent := Send(responders[i], u);
        if sent.0 {
          kept := kept + [sent.1];
        }
        i := i + 1;
      }
      assert responders[..i] == responders;
      responders := kept;
    }
  }

  /** The endpoints of an `Add` message, decoded one by one. */
  method DecodeAddSet(labels: seq<Label>, pbAddrs: seq<WeightedAddr>, isValidName: string -> bool)
    returns (entries: seq<(SockAddr, Metadata)>)
    ensures entries == AddSetEntries(labels, pbAddrs, isValidName)
  {
    entries := [];
    var i := 0;
    while i < |pbAddrs|
      invariant 0 <= i <= |pbAddrs|
      invariant entries == AddSetEntries(labels, pbAddrs[..i], isValidName)
    {
      assert pbAddrs[..i + 1][..i] == pbAddrs[..i];
      var decoded := PbToAddrMeta(pbAddrs[i], labels, isValidName);
      if decoded.Some? {
        entries := entries + [decoded.value];
      }
      i := i + 1;
    }
    assert pbAddrs[..i] == pbAddrs;
  }
}
