/**
 * What the operations of a destination set promise: how updates fan out to
 * responders, what each Destination service message leaves in the cache, how
 * a query ends, and that a known cache keeps each address once.
 */
module DestinationLaws {
  import opened Wrappers
  import opened IndexMaps
  import opened DestinationProto
  import opened EndpointCache
  import opened Destination

  // ----- responders -----

  lemma AppendAllConcat(a: seq<Responder>, b: seq<Responder>, us: seq<Update>)
    ensures AppendAll(a + b, us) == AppendAll(a, us) + AppendAll(b, us)
  {
  }

  lemma {:induction false} AliveAppendAll(rs: seq<Responder>, us: seq<Update>)
    ensures Alive(AppendAll(rs, us)) == AppendAll(Alive(rs), us)
  {
    if rs != [] {
      var init, last := rs[..|rs| - 1], rs[|rs| - 1];
      assert rs == init + [last];
      AliveAppendAll(init, us);
      AppendAllConcat(init, [last], us);
      assert AppendAll(rs, us)[..|rs| - 1] == AppendAll(init, us);
      AppendAllConcat(Alive(init), if last.alive then [last] else [], us);
    }
  }

  /** `on_change`'s retain-with-send keeps the live responders, in order, each having received the update. */
  lemma {:induction false} BroadcastDelivers(rs: seq<Responder>, u: Update)
    ensures Broadcast(rs, u) == Delivered(rs, [u])
  {
    if rs != [] {
      var init, last := rs[..|rs| - 1], rs[|rs| - 1];
      BroadcastDelivers(init, u);
      AppendAllConcat(Alive(init), if last.alive then [last] else [], [u]);
    }
  }

  /** Two fan-outs in a row deliver both batches, in order, to the responders that are alive. */
  lemma DeliveredTwice(rs: seq<Responder>, a: seq<Update>, b: seq<Update>)
    ensures Delivered(Delivered(rs, a), b) == Delivered(rs, a + b)
  {
    AliveAppendAll(Alive(rs), a);
    AliveSpec(rs);
    AppendAllTwice(Alive(rs), a, b);
  }

  lemma AppendAllTwice(rs: seq<Responder>, a: seq<Update>, b: seq<Update>)
    ensures AppendAll(AppendAll(rs, a), b) == AppendAll(rs, a + b)
  {
    var x, y := AppendAll(AppendAll(rs, a), b), AppendAll(rs, a + b);
    forall i | 0 <= i < |rs| ensures x[i] == y[i] {
      assert rs[i].received + a + b == rs[i].received + (a + b);
    }
  }

  /**
   * The change callback: a non-empty series of cache changes reaches every
   * live responder as one update per change, in order; dead responders are
   * dropped.
   */
  lemma {:induction false} NotifiedDelivers(rs: seq<Responder>, changes: seq<CacheChange>)
    requires changes != []
    ensures Notified(rs, changes) == Delivered(rs, UpdatesFor(changes))
  {
    var init, last := changes[..|changes| - 1], changes[|changes| - 1];
    BroadcastDelivers(Notified(rs, init), UpdateFor(last));
    if init == [] {
      assert UpdatesFor(changes) == [UpdateFor(last)];
    } else {
      NotifiedDelivers(rs, init);
      DeliveredTwice(rs, UpdatesFor(init), [UpdateFor(last)]);
      assert UpdatesFor(changes) == UpdatesFor(init) + [UpdateFor(last)];
    }
  }

  /** `on_change` turns insertions and modifications into `Add` and removals into `Remove`. */
  lemma UpdateForSpec(change: CacheChange)
    ensures UpdateFor(change).Add? <==> !change.Removal?
    ensures UpdateFor(change).Add? ==>
      (UpdateFor(change).addr == change.key &&
       UpdateFor(change).meta == (if change.Insertion? then change.value else change.newValue))
    ensures UpdateFor(change).Remove? <==> change.Removal?
    ensures UpdateFor(change).Remove? ==> UpdateFor(change).addr == change.key
  {
  }

  // ----- the operations -----

  /**
   * `no_endpoints`: the name is then known to exist with no endpoints, or
   * known not to exist; every live responder receives `NoEndpoints` and
   * then one `Remove` per endpoint that was cached, in cache order.
   */
  lemma NoEndpointsOutcome(s: Resolution, nameExists: bool)
    ensures NoEndpointsApplied(s, nameExists).addrs == (if nameExists then Yes(Empty) else No)
    ensures NoEndpointsApplied(s, nameExists).responders ==
      Delivered(s.responders, [Update.NoEndpoints] + CachedRemovals(s.addrs))
  {
    BroadcastDelivers(s.responders, Update.NoEndpoints);
    if s.addrs.Yes? && s.addrs.value.entries != [] {
      var changes := ClearChanges(s.addrs.value);
      NotifiedDelivers(Broadcast(s.responders, Update.NoEndpoints), changes);
      assert UpdatesFor(changes) == CachedRemovals(s.addrs);
      DeliveredTwice(s.responders, [Update.NoEndpoints], CachedRemovals(s.addrs));
    } else {
      assert [Update.NoEndpoints] + CachedRemovals(s.addrs) == [Update.NoEndpoints];
    }
  }

  /** Every responder that survives `no_endpoints` is alive and has just received its updates. */
  lemma NoEndpointsSurvivors(s: Resolution, nameExists: bool)
    ensures forall r :: r in NoEndpointsApplied(s, nameExists).responders ==> r.alive
    ensures |NoEndpointsApplied(s, nameExists).responders| == |Alive(s.responders)|
    ensures forall i :: 0 <= i < |NoEndpointsApplied(s, nameExists).responders| ==>
      NoEndpointsApplied(s, nameExists).responders[i].received ==
        Alive(s.responders)[i].received + [Update.NoEndpoints] + CachedRemovals(s.addrs)
  {
    NoEndpointsOutcome(s, nameExists);
    DeliveredSpec(s.responders, [Update.NoEndpoints], CachedRemovals(s.addrs));
  }

  /** A fan-out of `a + b` leaves only live responders, one per live responder, each having received `a` then `b`. */
  /** Every responder `Alive` keeps is live. */
  lemma {:induction false} AliveIndexed(rs: seq<Responder>)
    ensures forall i :: 0 <= i < |Alive(rs)| ==> Alive(rs)[i].alive
  {
    if rs != [] {
      AliveIndexed(rs[..|rs| - 1]);
    }
  }

  lemma DeliveredSpec(rs: seq<Responder>, a: seq<Update>, b: seq<Update>)
    ensures forall r :: r in Delivered(rs, a + b) ==> r.alive
    ensures |Delivered(rs, a + b)| == |Alive(rs)|
    ensures forall i :: 0 <= i < |Delivered(rs, a + b)| ==>
      Delivered(rs, a + b)[i].received == Alive(rs)[i].received + a + b
  {
    AliveIndexed(rs);
    var d := AppendAll(Alive(rs), a + b);
    forall i | 0 <= i < |d| ensures d[i].received == Alive(rs)[i].received + a + b && d[i].alive {
      assert d[i] == Alive(rs)[i].(received := Alive(rs)[i].received + (a + b));
    }
    forall r | r in d ensures r.alive {
      var i :| 0 <= i < |d| && d[i] == r;
    }
  }

  /**
   * `add`: the name is then known to exist; its cache is the previous one
   * (or a new one) with the endpoints merged in, later ones winning; the
   * responders are told one `Add` of a merged endpoint per change.
   */
  lemma AddedOutcome(s: Resolution, adds: seq<(SockAddr, Metadata)>)
    requires ValidResolution(s)
    ensures Added(s, adds).addrs.Yes? && ValidResolution(Added(s, adds))
    ensures ToMap(Added(s, adds).addrs.value.entries) ==
      (if s.addrs.Yes? then ToMap(s.addrs.value.entries) else map[]) + ToMap(adds)
    ensures Added(s, adds).responders == s.responders ||
      exists us :: us != [] && Added(s, adds).responders == Delivered(s.responders, us) &&
        forall u :: u in us ==> u.Add? && (u.addr, u.meta) in adds
  {
    var cache := if s.addrs.Yes? then s.addrs.value else Empty;
    UpdateUnionSpec(cache, adds);
    var changes := UpdateUnion(cache, adds).1;
    if changes != [] {
      NotifiedDelivers(s.responders, changes);
      AddUpdates(cache, adds);
      var us := UpdatesFor(changes);
      assert us != [] && Added(s, adds).responders == Delivered(s.responders, us);
    }
  }

  /** The updates a merge produces are `Add`s of merged endpoints. */
  lemma AddUpdates(cache: Cache, adds: seq<(SockAddr, Metadata)>)
    ensures forall u :: u in UpdatesFor(UpdateUnion(cache, adds).1) ==> u.Add? && (u.addr, u.meta) in adds
  {
    var changes := UpdateUnion(cache, adds).1;
    UpdateUnionChanges(cache, adds);
    forall u | u in UpdatesFor(changes) ensures u.Add? && (u.addr, u.meta) in adds {
      var i :| 0 <= i < |changes| && UpdatesFor(changes)[i] == u;
      assert changes[i] in changes;
    }
  }


  /**
   * `remove`: on a known cache, exactly the listed addresses are dropped
   * and the responders are told one `Remove` of a listed address per
   * dropped endpoint; otherwise the name becomes known with no endpoints
   * and no responder is told anything.
   */
  lemma RemovedOutcome(s: Resolution, keys: seq<SockAddr>)
    requires ValidResolution(s)
    ensures Removed(s, keys).addrs.Yes? && ValidResolution(Removed(s, keys))
    ensures s.addrs.Yes? ==>
      ToMap(Removed(s, keys).addrs.value.entries) == ToMap(s.addrs.value.entries) - set k | k in keys
    ensures !s.addrs.Yes? ==> Removed(s, keys).addrs.value == Empty && Removed(s, keys).responders == s.responders
    ensures Removed(s, keys).responders == s.responders ||
      exists us :: us != [] && Removed(s, keys).responders == Delivered(s.responders, us) &&
        forall u :: u in us ==> u.Remove? && u.addr in keys
  {
    if s.addrs.Yes? {
      RemoveAllSpec(s.addrs.value, keys);
      var changes := RemoveAll(s.addrs.value, keys).1;
      if changes != [] {
        NotifiedDelivers(s.responders, changes);
        forall u | u in UpdatesFor(changes) ensures u.Remove? && u.addr in keys {
          var i :| 0 <= i < |changes| && UpdatesFor(changes)[i] == u;
          assert changes[i] in changes;
        }
      }
    }
  }

  /** Marking a cache for reset changes neither what it holds nor the responders. */
  lemma ResetKeepsEntries(s: Resolution)
    ensures ResetApplied(s).responders == s.responders
    ensures ResetApplied(s).addrs.Yes? <==> s.addrs.Yes?
    ensures s.addrs.Yes? ==> ResetApplied(s).addrs.value.entries == s.addrs.value.entries
    ensures ValidResolution(s) ==> ValidResolution(ResetApplied(s))
  {
  }

  lemma AppliedValid(s: Resolution, u: Option<PbUpdate>, isValidName: string -> bool)
    requires ValidResolution(s)
    ensures ValidResolution(Applied(s, u, isValidName))
  {
    match u
    case None =>
    case Some(AddSet(labels, addrs)) => AddedOutcome(s, AddSetEntries(labels, addrs, isValidName));
    case Some(RemoveSet(addrs)) => RemovedOutcome(s, RemoveSetKeys(addrs));
    case Some(NoEndpointsSet(nameExists)) =>
  }

  // ----- polling the query -----

  /** The number of messages ready at the head of a stream. */
  function ReadyCount(polls: seq<Poll>): (k: nat)
    ensures k <= |polls|
    ensures forall i :: 0 <= i < k ==> polls[i].Ready?
    ensures k < |polls| ==> !polls[k].Ready?
  {
    if polls == [] || !polls[0].Ready? then 0 else 1 + ReadyCount(polls[1..])
  }

  /** The messages carried by a run of ready polls. */
  function Messages(polls: seq<Poll>): (us: seq<Option<PbUpdate>>)
    requires forall i :: 0 <= i < |polls| ==> polls[i].Ready?
    ensures |us| == |polls|
  {
    seq(|polls|, i requires 0 <= i < |polls| => polls[i].update)
  }

  /** The messages applied one after another. */
  function ApplyAll(s: Resolution, us: seq<Option<PbUpdate>>, isValidName: string -> bool): Resolution
    decreases |us|
  {
    if us == [] then s else ApplyAll(Applied(s, us[0], isValidName), us[1..], isValidName)
  }

  /**
   * `poll_query` applies every ready message in order, then ends as the
   * first result that is not a message says: the end of the stream or an
   * error other than InvalidArgument asks for a reconnect, InvalidArgument
   * records that the name does not exist and stops querying, and a stream
   * that is not ready is kept, positioned after that result.
   */
  lemma {:induction false} QueryPolledOutcome(s: Resolution, polls: seq<Poll>, isValidName: string -> bool)
    ensures var k := ReadyCount(polls);
      var applied := ApplyAll(s, Messages(polls[..k]), isValidName);
      var stopped := k < |polls| && polls[k] == Failed(InvalidArgument);
      && QueryPolled(s, polls, isValidName).0 == (if stopped then NoEndpointsApplied(applied, false) else applied)
      && (QueryPolled(s, polls, isValidName).1 == None <==> stopped)
      && (QueryPolled(s, polls, isValidName).1 == Some(NeedsReconnect) <==>
            k < |polls| && (polls[k] == StreamEnd || polls[k] == Failed(OtherCode)))
      && (k == |polls| ==> QueryPolled(s, polls, isValidName).1 == Some(ConnectedOrConnecting(Rx([]))))
      && (k < |polls| && polls[k] == NotReady ==>
            QueryPolled(s, polls, isValidName).1 == Some(ConnectedOrConnecting(Rx(polls[k + 1..]))))
    decreases |polls|
  {
    if polls != [] && polls[0].Ready? {
      var k := ReadyCount(polls);
      assert k == 1 + ReadyCount(polls[1..]);
      QueryPolledOutcome(Applied(s, polls[0].update, isValidName), polls[1..], isValidName);
      assert polls[..k][1..] == polls[1..][..k - 1];
      assert Messages(polls[..k])[1..] == Messages(polls[1..][..k - 1]);
      if k < |polls| {
        assert polls[1..][k..] == polls[k + 1..];
      }
    }
  }

  /** Polling the query keeps a known cache free of repeated addresses. */
  lemma {:induction false} QueryPolledValid(s: Resolution, polls: seq<Poll>, isValidName: string -> bool)
    requires ValidResolution(s)
    ensures ValidResolution(QueryPolled(s, polls, isValidName).0)
    decreases |polls|
  {
    if polls != [] && polls[0].Ready? {
      AppliedValid(s, polls[0].update, isValidName);
      QueryPolledValid(Applied(s, polls[0].update, isValidName), polls[1..], isValidName);
    }
  }

  /**
   * `poll_dst`: it asks to be queued for reconnection exactly when a
   * connected query now needs to reconnect, and then the cache is marked
   * for reset; with no query a name known to exist keeps existing with no
   * endpoints, and any other name becomes `No`; a query that already
   * needs to reconnect is left alone.
   */
  lemma DstPolledOutcome(s: Resolution, query: Option<Remote>, isValidName: string -> bool)
    requires ValidResolution(s)
    ensures ValidResolution(DstPolled(s, query, isValidName).0)
    ensures DstPolled(s, query, isValidName).2 <==>
      query.Some? && query.value.ConnectedOrConnecting? && DstPolled(s, query, isValidName).1 == Some(NeedsReconnect)
    ensures query == None ==>
      (DstPolled(s, query, isValidName).1 == None &&
       DstPolled(s, query, isValidName).0.addrs == (if s.addrs.Yes? then Yes(Empty) else No))
    ensures DstPolled(s, query, isValidName).2 ==>
      DstPolled(s, query, isValidName).0 == ResetApplied(QueryPolled(s, query.value.rx.polls, isValidName).0)
    ensures query == Some(NeedsReconnect) ==> DstPolled(s, query, isValidName) == (s, query, false)
  {
    if query.Some? && query.value.ConnectedOrConnecting? {
      QueryPolledValid(s, query.value.rx.polls, isValidName);
    }
  }

  /** A new destination set trivially satisfies the cache invariant. */
  lemma NewIsValid(responder: Responder)
    ensures ValidResolution(Resolution(Exists.Unknown, [responder]))
  {
  }
}
