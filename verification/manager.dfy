/**
 * The device registry of src/chromecasts_manager.cpp: the name-keyed map of
 * Chromecast records kept in step with the finder's update stream, the
 * websocket subscription hook, and each record's activation and connection
 * lifecycle.
 */
module ChromecastsManager {
  import opened Wrappers
  import opened Endpoints
  import opened Json
  import opened CastMessages
  import F = ChromecastFinder
  import ChromecastChannel

  /** A websocket message handler, identified by a token. */
  type Subscriber = nat

  /** An open ChromecastConnection: where it goes and what was written to it. */
  datatype Connection = Connection(endpoint: Endpoint, sent: seq<CastMessage>)

  /** A Chromecast object: its latest info, message handler, activation flag and connection. */
  datatype Chromecast = Chromecast(info: F.ChromecastInfo, subscriber: Option<Subscriber>,
                                   activated: bool, connection: Option<Connection>)

  /**
   * What dropping the last reference to a record or a connection sets off:
   * `~ChromecastConnection` disconnects (cancels the socket's operations) and
   * `~AudioSink` dispatches the sink's `free` to the PulseAudio strand.
   */
  datatype Release = Disconnect(endpoint: Endpoint) | FreeSink(name: string)

  /**
   * The `chromecasts` map, the names of the audio sinks requested from the
   * sinks manager so far (`Chromecast::init` asks for one per created record),
   * and the releases destroyed records and connections have set off, in order.
   */
  datatype Manager = Manager(chromecasts: map<string, Chromecast>, sinks: seq<string>,
                             released: seq<Release>)

  /** The sinks whose `free` a release sequence dispatches, in order. */
  function FreedSinks(rs: seq<Release>): seq<string>
    decreases |rs|
  {
    if |rs| == 0 then []
    else (if rs[0].FreeSink? then [rs[0].name] else []) + FreedSinks(rs[1..])
  }

  lemma {:induction false} FreedSinksAppend(a: seq<Release>, b: seq<Release>)
    ensures FreedSinks(a + b) == FreedSinks(a) + FreedSinks(b)
    decreases |a|
  {
    if |a| == 0 {
      assert a + b == b;
    } else {
      assert (a + b)[0] == a[0];
      assert (a + b)[1..] == a[1..] + b;
      FreedSinksAppend(a[1..], b);
    }
  }

  /**
   * No sink leaks and none is freed twice: every sink requested so far is
   * either held by the live record of that name or has been freed, once.
   */
  ghost predicate SinksBalanced(m: Manager) {
    multiset(m.sinks) == multiset(FreedSinks(m.released)) + multiset(m.chromecasts.Keys)
  }

  /** The connection a record holds, as far as releasing it goes. */
  function ConnectionRelease(c: Chromecast): (rs: seq<Release>)
    ensures FreedSinks(rs) == []
    ensures c.connection.None? ==> rs == []
    ensures c.connection.Some? ==> rs == [Disconnect(c.connection.value.endpoint)]
  {
    if c.connection.Some? then [Disconnect(c.connection.value.endpoint)] else []
  }

  /**
   * Destroying the record registered as `name`: members go in reverse order
   * of declaration, so its connection (if any) is disconnected before its
   * sink, the one created under `name`, is freed.
   */
  function Destroy(name: string, c: Chromecast): (rs: seq<Release>)
    ensures FreedSinks(rs) == [name]
    ensures rs[|rs| - 1] == FreeSink(name)
    ensures rs[..|rs| - 1] == ConnectionRelease(c)
  {
    var rs := ConnectionRelease(c) + [FreeSink(name)];
    FreedSinksAppend(ConnectionRelease(c), [FreeSink(name)]);
    assert FreedSinks([FreeSink(name)]) == [name] by {
      assert [FreeSink(name)][1..] == [];
    }
    assert rs[..|rs| - 1] == ConnectionRelease(c);
    rs
  }

  /** `Chromecast::create`: not activated, no handler, no connection. */
  function Create(info: F.ChromecastInfo): Chromecast {
    Chromecast(info, None, false, None)
  }

  /**
   * `finder_callback`: NEW (re)creates the record, asking for a sink named
   * after the device; UPDATE replaces the info of the existing record, which
   * must be there since it is dereferenced; REMOVE erases the record. A record
   * that NEW replaces or REMOVE erases is destroyed: its connection is
   * disconnected and its sink freed.
   */
  function FinderCallback(m: Manager, u: F.Update): (r: Manager)
    requires u.kind == F.UPDATE ==> u.info.name in m.chromecasts
    ensures r.chromecasts.Keys
            == if u.kind == F.REMOVE then m.chromecasts.Keys - {u.info.name}
               else m.chromecasts.Keys + {u.info.name}
    ensures u.kind != F.REMOVE ==> r.chromecasts[u.info.name].info == u.info
    ensures u.kind == F.NEW ==> r.chromecasts[u.info.name] == Create(u.info)
    ensures u.kind == F.UPDATE ==>
              r.chromecasts[u.info.name] == m.chromecasts[u.info.name].(info := u.info)
    ensures r.sinks == if u.kind == F.NEW then m.sinks + [u.info.name] else m.sinks
    ensures forall n :: n != u.info.name && n in m.chromecasts ==> r.chromecasts[n] == m.chromecasts[n]
    ensures u.kind == F.UPDATE || u.info.name !in m.chromecasts ==> r.released == m.released
    ensures u.kind != F.UPDATE && u.info.name in m.chromecasts ==>
              r.released == m.released + Destroy(u.info.name, m.chromecasts[u.info.name])
  {
    var name := u.info.name;
    var dropped := if name in m.chromecasts then Destroy(name, m.chromecasts[name]) else [];
    match u.kind
    case NEW => Manager(m.chromecasts[name := Create(u.info)], m.sinks + [name], m.released + dropped)
    case UPDATE => m.(chromecasts := m.chromecasts[name := m.chromecasts[name].(info := u.info)])
    case REMOVE => m.(chromecasts := m.chromecasts - {name}, released := m.released + dropped)
  }

  /** Each finder update keeps every requested sink either held or freed once. */
  lemma FinderCallbackBalanced(m: Manager, u: F.Update)
    requires u.kind == F.UPDATE ==> u.info.name in m.chromecasts
    requires SinksBalanced(m)
    ensures SinksBalanced(FinderCallback(m, u))
  {
    match u.kind
    case NEW => NewBalanced(m, u.info);
    case UPDATE => assert FinderCallback(m, u).chromecasts.Keys == m.chromecasts.Keys;
    case REMOVE => RemoveBalanced(m, u.info.name);
  }

  lemma NewBalanced(m: Manager, info: F.ChromecastInfo)
    requires SinksBalanced(m)
    ensures var name := info.name;
            var dropped := if name in m.chromecasts then Destroy(name, m.chromecasts[name]) else [];
            SinksBalanced(Manager(m.chromecasts[name := Create(info)], m.sinks + [name], m.released + dropped))
  {
    if info.name in m.chromecasts {
      NewReplacesBalanced(m, info);
    } else {
      NewFreshBalanced(m, info);
    }
  }

  lemma NewReplacesBalanced(m: Manager, info: F.ChromecastInfo)
    requires SinksBalanced(m) && info.name in m.chromecasts
    ensures var name := info.name;
            SinksBalanced(Manager(m.chromecasts[name := Create(info)], m.sinks + [name],
                                  m.released + Destroy(name, m.chromecasts[name])))
  {
    var name := info.name;
    var dropped := Destroy(name, m.chromecasts[name]);
    FreedSinksAppend(m.released, dropped);
    assert multiset(FreedSinks(m.released + dropped)) == multiset(FreedSinks(m.released)) + multiset{name};
    assert m.chromecasts[name := Create(info)].Keys == m.chromecasts.Keys;
    SinkReplaced(m.sinks, multiset(FreedSinks(m.released)), m.chromecasts.Keys, name);
  }

  lemma NewFreshBalanced(m: Manager, info: F.ChromecastInfo)
    requires SinksBalanced(m) && info.name !in m.chromecasts
    ensures var name := info.name;
            SinksBalanced(Manager(m.chromecasts[name := Create(info)], m.sinks + [name], m.released + []))
  {
    var name := info.name;
    assert m.released + [] == m.released;
    assert m.chromecasts[name := Create(info)].Keys == m.chromecasts.Keys + {name};
    SinkAdded(m.sinks, multiset(FreedSinks(m.released)), m.chromecasts.Keys, name);
  }

  lemma RemoveBalanced(m: Manager, name: string)
    requires SinksBalanced(m)
    ensures var dropped := if name in m.chromecasts then Destroy(name, m.chromecasts[name]) else [];
            SinksBalanced(m.(chromecasts := m.chromecasts - {name}, released := m.released + dropped))
  {
    var dropped := if name in m.chromecasts then Destroy(name, m.chromecasts[name]) else [];
    FreedSinksAppend(m.released, dropped);
    if name in m.chromecasts {
      SinkRemoved(m.sinks, multiset(FreedSinks(m.released)), m.chromecasts.Keys, name);
    } else {
      assert m.chromecasts.Keys - {name} == m.chromecasts.Keys;
    }
  }

  /** A sink created for a new name is held by its record. */
  lemma SinkAdded(sinks: seq<string>, freed: multiset<string>, keys: set<string>, name: string)
    requires multiset(sinks) == freed + multiset(keys) && name !in keys
    ensures multiset(sinks + [name]) == freed + multiset(keys + {name})
  {
    assert multiset(keys + {name}) == multiset(keys) + multiset{name};
  }

  /** A record replaced by a new one: the old sink is freed, the new one held. */
  lemma SinkReplaced(sinks: seq<string>, freed: multiset<string>, keys: set<string>, name: string)
    requires multiset(sinks) == freed + multiset(keys) && name in keys
    ensures multiset(sinks + [name]) == (freed + multiset{name}) + multiset(keys)
  {
  }

  /** An erased record's sink is freed. */
  lemma SinkRemoved(sinks: seq<string>, freed: multiset<string>, keys: set<string>, name: string)
    requires multiset(sinks) == freed + multiset(keys) && name in keys
    ensures multiset(sinks) == (freed + multiset{name}) + multiset(keys - {name})
  {
    assert keys == (keys - {name}) + {name};
    assert multiset(keys) == multiset(keys - {name}) + multiset{name};
  }

  /**
   * A batch of finder updates, in order. On a well-formed stream every UPDATE
   * finds its record, and the registry ends with the names the stream leaves known.
   */
  function ApplyUpdates(m: Manager, us: seq<F.Update>): (r: Manager)
    requires F.WellFormedStream(m.chromecasts.Keys, us)
    ensures r.chromecasts.Keys == F.ApplyKeys(m.chromecasts.Keys, us)
    decreases |us|
  {
    if |us| == 0 then m
    else ApplyUpdates(FinderCallback(m, us[0]), us[1..])
  }

  /** A batch of updates keeps every requested sink either held or freed once. */
  lemma {:induction false} ApplyUpdatesBalanced(m: Manager, us: seq<F.Update>)
    requires F.WellFormedStream(m.chromecasts.Keys, us)
    requires SinksBalanced(m)
    ensures SinksBalanced(ApplyUpdates(m, us))
    decreases |us|
  {
    if |us| > 0 {
      FinderCallbackBalanced(m, us[0]);
      ApplyUpdatesBalanced(FinderCallback(m, us[0]), us[1..]);
    }
  }

  lemma ApplyOne(m: Manager, u: F.Update)
    requires F.WellFormedStream(m.chromecasts.Keys, [u])
    ensures ApplyUpdates(m, [u]) == FinderCallback(m, u)
  {
    assert [u][1..] == [];
  }

  /**
   * The registry mirrors the finder's devices: the same names, and each
   * record holds the info the finder would report for that device now.
   */
  ghost predicate Mirrors(cc: map<string, F.Device>, m: Manager) {
    && m.chromecasts.Keys == cc.Keys
    && forall n :: n in m.chromecasts && n in cc ==> m.chromecasts[n].info == F.Info(n, cc[n])
  }

  function Empty(): (m: Manager)
    ensures Mirrors(F.Empty().chromecasts, m)
    ensures SinksBalanced(m)
  {
    Manager(map[], [], [])
  }

  /**
   * The finder changed at most the device `name` and reported at most one
   * update about it, faithfully: the registry follows.
   */
  lemma MirrorAfterReport(cc: map<string, F.Device>, g: map<string, F.Device>, m: Manager,
                          name: string, us: seq<F.Update>)
    requires Mirrors(cc, m)
    requires forall n :: n != name ==> (n in g <==> n in cc) && (n in g ==> g[n] == cc[n])
    requires |us| <= 1
    requires us == [] ==>
               (name in g <==> name in cc) && (name in g ==> F.Info(name, g[name]) == F.Info(name, cc[name]))
    requires us != [] ==>
               && us[0].info.name == name
               && (us[0].kind == F.NEW <==> name !in cc)
               && (us[0].kind == F.REMOVE <==> name !in g)
               && (us[0].kind != F.REMOVE ==> us[0].info == F.Info(name, g[name]) && us[0].info.endpoints != {})
    ensures F.WellFormedStream(m.chromecasts.Keys, us) && Mirrors(g, ApplyUpdates(m, us))
  {
    if us != [] {
      MirrorAfterOne(cc, g, m, name, us[0]);
    }
  }

  lemma MirrorAfterOne(cc: map<string, F.Device>, g: map<string, F.Device>, m: Manager,
                       name: string, u: F.Update)
    requires Mirrors(cc, m)
    requires forall n :: n != name ==> (n in g <==> n in cc) && (n in g ==> g[n] == cc[n])
    requires u.info.name == name
    requires u.kind == F.NEW <==> name !in cc
    requires u.kind == F.REMOVE <==> name !in g
    requires u.kind != F.REMOVE ==> u.info == F.Info(name, g[name]) && u.info.endpoints != {}
    ensures F.WellFormedStream(m.chromecasts.Keys, [u]) && Mirrors(g, ApplyUpdates(m, [u]))
  {
    F.OneUpdate(m.chromecasts.Keys, [u][0]);
    ApplyOne(m, u);
    var r := FinderCallback(m, u);
    assert r.chromecasts.Keys == g.Keys;
  }

  /** A resolver's report keeps the registry a mirror of the finder. */
  lemma MirrorAfterUpdate(f: F.Finder, m: Manager, id: F.ResolverId, ep: Endpoint,
                          dns: map<string, string>)
    requires F.Inv(f) && id in f.resolvers
    requires Mirrors(f.chromecasts, m)
    ensures var r := F.ChromecastsUpdate(f, id, ep, dns);
            F.WellFormedStream(m.chromecasts.Keys, r.1) && Mirrors(r.0.chromecasts, ApplyUpdates(m, r.1))
  {
    var r := F.ChromecastsUpdate(f, id, ep, dns);
    F.UpdateReports(f, id, ep, dns);
    F.KeptDeviceHasEndpoint(r.0.chromecasts, r.0.resolverToChromecast, id.name);
    MirrorAfterReport(f.chromecasts, r.0.chromecasts, m, id.name, r.1);
  }

  /** A resolver's removal keeps the registry a mirror of the finder. */
  lemma MirrorAfterRemove(f: F.Finder, m: Manager, id: F.ResolverId)
    requires F.Linked(f.chromecasts, f.resolverToChromecast)
    requires Mirrors(f.chromecasts, m)
    ensures var r := F.ChromecastsRemove(f, id);
            F.WellFormedStream(m.chromecasts.Keys, r.1) && Mirrors(r.0.chromecasts, ApplyUpdates(m, r.1))
  {
    var r := F.ChromecastsRemove(f, id);
    F.RemoveTouchesOnlyItsDevice(f, id);
    if id in f.resolverToChromecast {
      if F.DeviceOf(f, id.name).endpoints.Keys == {id} {
        F.RemoveLastResolver(f, id);
      } else {
        F.RemoveOtherResolver(f, id);
        F.KeptDeviceHasEndpoint(r.0.chromecasts, r.0.resolverToChromecast, id.name);
      }
    }
    MirrorAfterReport(f.chromecasts, r.0.chromecasts, m, id.name, r.1);
  }

  /** One finder event and the updates it delivers keep the mirror. */
  lemma MirrorAfterStep(f: F.Finder, m: Manager, ev: F.Event)
    requires F.Inv(f) && F.Possible(f, ev)
    requires Mirrors(f.chromecasts, m)
    requires F.Step(f, ev).Success?
    ensures var r := F.Step(f, ev).value;
            F.WellFormedStream(m.chromecasts.Keys, r.1) && Mirrors(r.0.chromecasts, ApplyUpdates(m, r.1))
  {
    match ev
    case BrowserFailure =>
    case BrowserNew(id, _) =>
    case BrowserRemove(id) =>
      MirrorAfterRemove(f.(resolvers := f.resolvers - {id}), m, id);
    case ResolverFailure(id) =>
      MirrorAfterRemove(f.(resolvers := f.resolvers - {id}), m, id);
    case ResolverFound(id, ep, txt) =>
      MirrorAfterUpdate(f, m, id, ep, F.ParseTxt(txt).value);
  }

  /** Where a run of finder events ends: the two states, and the error that stopped it, if any. */
  datatype Run = Run(finder: F.Finder, manager: Manager, error: Option<F.Thrown>)

  /**
   * The finder and the registry driven by a sequence of Avahi events. A
   * finder error is propagated and ends the run; a callback for a resolver
   * already freed cannot be delivered, so the run also ends there. Throughout,
   * the registry mirrors the finder.
   */
  function Drive(f: F.Finder, m: Manager, evs: seq<F.Event>): (r: Run)
    requires F.Inv(f) && Mirrors(f.chromecasts, m)
    ensures F.Inv(r.finder) && Mirrors(r.finder.chromecasts, r.manager)
    decreases |evs|
  {
    if |evs| == 0 || !F.Possible(f, evs[0]) then Run(f, m, None)
    else
      match F.Step(f, evs[0])
      case Failure(e) => Run(f, m, Some(e))
      case Success(s) =>
        MirrorAfterStep(f, m, evs[0]);
        Drive(s.0, ApplyUpdates(m, s.1), evs[1..])
  }

  /**
   * An Avahi failure throws out of the browse callback: a browser failure, or
   * a browser NEW whose resolver could not be created, ends the run with that
   * runtime error and leaves both states as they were.
   */
  lemma AvahiFailureEndsRun(f: F.Finder, m: Manager, evs: seq<F.Event>)
    requires F.Inv(f) && Mirrors(f.chromecasts, m)
    requires |evs| > 0 && (evs[0].BrowserFailure? || (evs[0].BrowserNew? && !evs[0].created))
    ensures Drive(f, m, evs).error.Some? && Drive(f, m, evs).error.value.Runtime?
    ensures Drive(f, m, evs).finder == f && Drive(f, m, evs).manager == m
  {
  }

  /** Every record of a mirroring registry is named by its key and has an endpoint to connect to. */
  lemma MirroredRecordHasEndpoint(f: F.Finder, m: Manager, name: string)
    requires F.Inv(f) && Mirrors(f.chromecasts, m)
    requires name in m.chromecasts
    ensures m.chromecasts[name].info.name == name
    ensures m.chromecasts[name].info.endpoints != {}
  {
    F.KeptDeviceHasEndpoint(f.chromecasts, f.resolverToChromecast, name);
  }

  /**
   * `websocket_subscribe_callback`: a known name gets the handler; an unknown
   * one is only warned about (the second component).
   */
  function Subscribe(m: Manager, name: string, s: Subscriber): (r: (Manager, bool))
    ensures r.1 <==> name !in m.chromecasts
    ensures r.1 ==> r.0 == m
    ensures !r.1 ==>
              r.0 == m.(chromecasts := m.chromecasts[name := m.chromecasts[name].(subscriber := Some(s))])
    ensures !r.1 ==> r.0.chromecasts[name].subscriber == Some(s)
    ensures forall n :: n in m.chromecasts && n != name ==> r.0.chromecasts[n] == m.chromecasts[n]
  {
    if name in m.chromecasts then
      (m.(chromecasts := m.chromecasts[name := m.chromecasts[name].(subscriber := Some(s))]), false)
    else (m, true)
  }

  /**
   * `activation_callback`: activation opens a connection to the first
   * endpoint in the set's order (the smallest address, then port);
   * deactivation drops the connection. Info and handler are kept.
   */
  function Activation(c: Chromecast, activate: bool): (r: Chromecast)
    requires activate ==> c.info.endpoints != {}
    ensures r.activated == activate
    ensures r.info == c.info && r.subscriber == c.subscriber
    ensures !activate ==> r.connection.None?
    ensures activate ==> r.connection.Some? && r.connection.value.sent == []
                         && IsFirst(r.connection.value.endpoint, c.info.endpoints)
  {
    if activate then c.(activated := true, connection := Some(Connection(First(c.info.endpoints), [])))
    else c.(activated := false, connection := None)
  }

  /**
   * The activation callback of a registered device, looked up by name. The
   * connection it held before, if any, is released (deactivation resets it,
   * activation replaces it); no sink is freed.
   */
  function Activate(m: Manager, name: string, activate: bool): (r: Manager)
    requires name in m.chromecasts
    requires activate ==> m.chromecasts[name].info.endpoints != {}
    ensures r.chromecasts.Keys == m.chromecasts.Keys && r.sinks == m.sinks
    ensures r.chromecasts[name] == Activation(m.chromecasts[name], activate)
    ensures forall n :: n in m.chromecasts && n != name ==> r.chromecasts[n] == m.chromecasts[n]
    ensures r.released == m.released + ConnectionRelease(m.chromecasts[name])
    ensures SinksBalanced(m) ==> SinksBalanced(r)
  {
    FreedSinksAppend(m.released, ConnectionRelease(m.chromecasts[name]));
    m.(chromecasts := m.chromecasts[name := Activation(m.chromecasts[name], activate)],
       released := m.released + ConnectionRelease(m.chromecasts[name]))
  }

  /** Activating any device of a registry that mirrors the finder is always possible. */
  lemma ActivationPossible(f: F.Finder, m: Manager, name: string)
    requires F.Inv(f) && Mirrors(f.chromecasts, m)
    requires name in m.chromecasts
    ensures Activate(m, name, true).chromecasts[name].connection.value.endpoint
            in F.Info(name, f.chromecasts[name]).endpoints
  {
    MirroredRecordHasEndpoint(f, m, name);
  }

  /** `connection_error_handler`: the connection is dropped; the record stays activated. */
  function ConnectionError(c: Chromecast): (r: Chromecast)
    ensures r.connection.None?
    ensures r.(connection := c.connection) == c
  {
    c.(connection := None)
  }

  const SENDER_ID: string := "sender-0"
  const RECEIVER_ID: string := "receiver-0"

  /**
   * What `connection_connected_handler` leaves: the record, or undefined
   * behaviour when it writes through a connection that is already gone.
   */
  datatype Handled = Handled(record: Chromecast) | NullDereference

  /**
   * `connection_connected_handler`: once connected, CONNECT on the connection
   * namespace and then PING on the heartbeat namespace are written, from
   * sender-0 to receiver-0; a failed connect drops the connection. The
   * handler is queued, so the connection may have been reset before it runs;
   * `connected(true)` then writes through a null pointer.
   */
  function OnConnected(c: Chromecast, connected: bool): (r: Handled)
    ensures r.NullDereference? <==> connected && c.connection.None?
    ensures !connected ==> r == Handled(c.(connection := None))
    ensures connected && c.connection.Some? ==>
              && r.Handled? && r.record.(connection := c.connection) == c
              && r.record.connection.Some? && r.record.connection.value.endpoint == c.connection.value.endpoint
              && |r.record.connection.value.sent| == |c.connection.value.sent| + 2
              && r.record.connection.value.sent[..|c.connection.value.sent|] == c.connection.value.sent
  {
    if !connected then Handled(c.(connection := None))
    else if c.connection.None? then NullDereference
    else
      var conn := c.connection.value;
      var connect := JsonMessage(SENDER_ID, RECEIVER_ID, CONNECTION_NS, TypeOnly("CONNECT"));
      var ping := JsonMessage(SENDER_ID, RECEIVER_ID, HEARTBEAT_NS, TypeOnly("PING"));
      assert (conn.sent + [connect, ping])[..|conn.sent|] == conn.sent;
      Handled(c.(connection := Some(conn.(sent := conn.sent + [connect, ping]))))
  }

  /**
   * A `connected(true)` still queued when a connection error or a
   * deactivation resets the connection is undefined behaviour; a queued
   * `connected(false)` only drops the connection again.
   */
  lemma ConnectedAfterReset(c: Chromecast, connected: bool)
    ensures var r1 := OnConnected(ConnectionError(c), connected);
            var r2 := OnConnected(Activation(c, false), connected);
            && (connected ==> r1 == NullDereference && r2 == NullDereference)
            && (!connected ==> r1 == Handled(ConnectionError(c)) && r2 == Handled(Activation(c, false)))
  {
  }

  /**
   * The greeting written on connect is exactly what a cast channel named
   * sender-0 talking to receiver-0 sends when it starts.
   */
  lemma GreetingIsChannelStart(c: Chromecast)
    requires c.connection.Some?
    ensures OnConnected(c, true).record.connection.value.sent
            == c.connection.value.sent
               + ChromecastChannel.Start(
                   ChromecastChannel.NewChannel(SENDER_ID, RECEIVER_ID, ChromecastChannel.Main))
  {
  }
}
