/**
 * Discovery bookkeeping of src/chromecast_finder.cpp. Avahi reports services
 * through resolvers; the finder keeps, per device name, which resolver saw
 * which endpoint, reference-counts the distinct endpoints, and reports each
 * device as NEW, UPDATE or REMOVE to its owner.
 *
 * A resolver is identified by its ResolverId (interface, protocol, name): the
 * registry admits one resolver per id, so the id stands for the resolver
 * pointer, and the name a resolver reports is the name in its id.
 */
module ChromecastFinder {
  import opened Wrappers
  import opened Endpoints

  datatype ResolverId = ResolverId(iface: int, protocol: int, name: string)

  datatype UpdateType = NEW | UPDATE | REMOVE

  /** What `send_update` reports: the name, the distinct endpoints and the TXT map. */
  datatype ChromecastInfo = ChromecastInfo(name: string, endpoints: set<Endpoint>,
                                           dns: map<string, string>)

  datatype Update = Update(kind: UpdateType, info: ChromecastInfo)

  /**
   * InternalChromecastInfo: the TXT map, the reference count of each distinct
   * endpoint, and the endpoint each resolver reported.
   */
  datatype Device = Device(dns: map<string, string>, endpointCount: map<Endpoint, int>,
                           endpoints: map<ResolverId, Endpoint>)

  /** `resolvers`, `chromecasts` and `resolver_to_chromecast`. */
  datatype Finder = Finder(resolvers: set<ResolverId>, chromecasts: map<string, Device>,
                           resolverToChromecast: map<ResolverId, string>)

  /** The `std::logic_error`s the finder throws. */
  datatype LogicError = NoEqualSign | ResolverAlreadyThere | ResolverNotThere

  /** The `std::runtime_error`s the browse callback throws when Avahi reports a failure. */
  datatype RuntimeError = BrowserFailed | ResolverNotCreated

  /** What a callback throws. */
  datatype Thrown = Logic(logic: LogicError) | Runtime(runtime: RuntimeError)

  // ---------------------------------------------------------------------------
  // TXT records

  /** Position of the first '=' in a TXT entry, or its length if there is none. */
  function EqPos(e: string): (k: nat)
    ensures k <= |e|
    ensures k < |e| ==> e[k] == '='
    ensures forall j :: 0 <= j < k ==> e[j] != '='
    ensures k == |e| <==> '=' !in e
    decreases |e|
  {
    if |e| == 0 then 0
    else if e[0] == '=' then 0
    else 1 + EqPos(e[1..])
  }

  function Key(e: string): string {
    e[..EqPos(e)]
  }

  function Value(e: string): string
    requires '=' in e
  {
    e[EqPos(e) + 1..]
  }

  /** Entry `i` is the first with its key. */
  predicate FirstWithKey(entries: seq<string>, i: nat)
    requires i < |entries|
  {
    forall j :: 0 <= j < i ==> Key(entries[j]) != Key(entries[i])
  }

  /**
   * What the loop of `avahiDNSStringListToMap` has built after `n` entries:
   * every entry so far had a '=', its key is present, every key comes from one
   * of those entries, and a key holds the value of its first entry.
   */
  ghost predicate ParsedPrefix(entries: seq<string>, n: nat, acc: map<string, string>)
    requires n <= |entries|
  {
    KeysPresent(entries, n, acc) && KeysFromEntries(entries, n, acc) && FirstValuesKept(entries, n, acc)
  }

  ghost predicate KeysPresent(entries: seq<string>, n: nat, acc: map<string, string>)
    requires n <= |entries|
  {
    forall i :: 0 <= i < n ==> '=' in entries[i] && Key(entries[i]) in acc
  }

  ghost predicate KeysFromEntries(entries: seq<string>, n: nat, acc: map<string, string>)
    requires n <= |entries|
  {
    forall k :: k in acc ==> exists i :: 0 <= i < n && Key(entries[i]) == k
  }

  ghost predicate FirstValuesKept(entries: seq<string>, n: nat, acc: map<string, string>)
    requires n <= |entries|
    requires KeysPresent(entries, n, acc)
  {
    forall i :: 0 <= i < n && FirstWithKey(entries, i) ==> acc[Key(entries[i])] == Value(entries[i])
  }

  /** `map::insert`: a key already present keeps its value. */
  function Insert(acc: map<string, string>, e: string): map<string, string>
    requires '=' in e
  {
    if Key(e) in acc then acc else acc[Key(e) := Value(e)]
  }

  lemma ParsedPrefixStep(entries: seq<string>, n: nat, acc: map<string, string>)
    requires n < |entries| && '=' in entries[n]
    requires ParsedPrefix(entries, n, acc)
    ensures ParsedPrefix(entries, n + 1, Insert(acc, entries[n]))
  {
    KeysPresentStep(entries, n, acc);
    KeysFromEntriesStep(entries, n, acc);
    FirstValuesStep(entries, n, acc);
  }

  lemma KeysPresentStep(entries: seq<string>, n: nat, acc: map<string, string>)
    requires n < |entries| && '=' in entries[n]
    requires KeysPresent(entries, n, acc)
    ensures KeysPresent(entries, n + 1, Insert(acc, entries[n]))
  {
  }

  lemma KeysFromEntriesStep(entries: seq<string>, n: nat, acc: map<string, string>)
    requires n < |entries| && '=' in entries[n]
    requires KeysFromEntries(entries, n, acc)
    ensures KeysFromEntries(entries, n + 1, Insert(acc, entries[n]))
  {
    var next := Insert(acc, entries[n]);
    forall k | k in next ensures exists i :: 0 <= i < n + 1 && Key(entries[i]) == k {
      if k in acc {
        var i :| 0 <= i < n && Key(entries[i]) == k;
      } else {
        assert Key(entries[n]) == k;
      }
    }
  }

  lemma FirstValuesStep(entries: seq<string>, n: nat, acc: map<string, string>)
    requires n < |entries| && '=' in entries[n]
    requires ParsedPrefix(entries, n, acc)
    ensures KeysPresent(entries, n + 1, Insert(acc, entries[n]))
    ensures FirstValuesKept(entries, n + 1, Insert(acc, entries[n]))
  {
    var e := entries[n];
    var next := Insert(acc, e);
    KeysPresentStep(entries, n, acc);
    forall i | 0 <= i < n + 1 && FirstWithKey(entries, i)
      ensures next[Key(entries[i])] == Value(entries[i])
    {
      if i == n {
        forall k | k in acc ensures k != Key(e) {
          var j :| 0 <= j < n && Key(entries[j]) == k;
        }
      } else {
        assert Key(entries[i]) in acc;
      }
    }
  }

  /**
   * The loop of `avahiDNSStringListToMap` from entry `n` on: each entry is split
   * at its first '=', an entry without one throws, and `map::insert` keeps the
   * value of the first entry with a given key.
   */
  function ParseTxtFrom(entries: seq<string>, n: nat, acc: map<string, string>)
    : (r: Result<map<string, string>, LogicError>)
    requires n <= |entries|
    requires ParsedPrefix(entries, n, acc)
    ensures r.Failure? <==> exists i :: n <= i < |entries| && '=' !in entries[i]
    ensures r.Failure? ==> r.error == NoEqualSign
    ensures r.Success? ==> ParsedPrefix(entries, |entries|, r.value)
    decreases |entries| - n
  {
    if n == |entries| then Success(acc)
    else
      var e := entries[n];
      if EqPos(e) == |e| then Failure(NoEqualSign)
      else
        ParsedPrefixStep(entries, n, acc);
        ParseTxtFrom(entries, n + 1, Insert(acc, e))
  }

  /**
   * `avahiDNSStringListToMap`: fails exactly when some entry has no '=';
   * otherwise the keys are exactly the entries' prefixes before their first
   * '=', and each key maps to the rest of the first entry carrying it.
   */
  function ParseTxt(entries: seq<string>): (r: Result<map<string, string>, LogicError>)
    ensures r.Failure? <==> exists i :: 0 <= i < |entries| && '=' !in entries[i]
    ensures r.Failure? ==> r.error == NoEqualSign
    ensures r.Success? ==> forall i :: 0 <= i < |entries| ==> Key(entries[i]) in r.value
    ensures r.Success? ==>
              forall k :: k in r.value ==> exists i :: 0 <= i < |entries| && Key(entries[i]) == k
    ensures r.Success? ==>
              forall i :: 0 <= i < |entries| && FirstWithKey(entries, i) ==>
                r.value[Key(entries[i])] == Value(entries[i])
  {
    ParseTxtFrom(entries, 0, map[])
  }

  // ---------------------------------------------------------------------------
  // Endpoint reference counts

  /** The resolvers of a device that reported endpoint `e`. */
  function ResolversAt(eps: map<ResolverId, Endpoint>, e: Endpoint): set<ResolverId> {
    set r | r in eps && eps[r] == e
  }

  /**
   * The counting invariant: every endpoint a resolver reported has a count,
   * and each count is the (positive) number of resolvers that reported it.
   */
  ghost predicate Counted(d: Device) {
    && (forall e :: e in d.endpointCount ==>
          d.endpointCount[e] == |ResolversAt(d.endpoints, e)| && d.endpointCount[e] > 0)
    && (forall r :: r in d.endpoints ==> d.endpoints[r] in d.endpointCount)
  }

  /** The distinct endpoints, i.e. the key set of `endpoint_count`. */
  function EndpointSet(d: Device): set<Endpoint> {
    d.endpointCount.Keys
  }

  /** The endpoints a device's count keys are exactly the endpoints its resolvers use. */
  lemma CountKeysAreEndpointsInUse(d: Device)
    requires Counted(d)
    ensures EndpointSet(d) == d.endpoints.Values
  {
    forall e | e in d.endpointCount
      ensures e in d.endpoints.Values
    {
      var r :| r in ResolversAt(d.endpoints, e);
    }
  }

  lemma ResolversAtSet(eps: map<ResolverId, Endpoint>, id: ResolverId, ep: Endpoint, e: Endpoint)
    requires id !in eps
    ensures ResolversAt(eps[id := ep], e)
            == if e == ep then ResolversAt(eps, e) + {id} else ResolversAt(eps, e)
  {
  }

  lemma ResolversAtErase(eps: map<ResolverId, Endpoint>, id: ResolverId, e: Endpoint)
    ensures ResolversAt(eps - {id}, e) == ResolversAt(eps, e) - {id}
  {
  }

  /** One more resolver uses `ep`: its count is incremented, or inserted as 1. */
  function Retain(count: map<Endpoint, int>, ep: Endpoint): map<Endpoint, int> {
    if ep in count then count[ep := count[ep] + 1] else count[ep := 1]
  }

  /** One resolver fewer uses `ep`: its count is decremented and erased at zero. */
  function Release(count: map<Endpoint, int>, ep: Endpoint): map<Endpoint, int>
    requires ep in count
  {
    if count[ep] - 1 == 0 then count - {ep} else count[ep := count[ep] - 1]
  }

  lemma NobodyAtUncounted(d: Device, ep: Endpoint)
    requires Counted(d)
    requires ep !in d.endpointCount
    ensures ResolversAt(d.endpoints, ep) == {}
  {
    forall r | r in d.endpoints ensures d.endpoints[r] != ep {
      assert d.endpoints[r] in d.endpointCount;
    }
  }

  lemma AttachCounted(d: Device, id: ResolverId, ep: Endpoint)
    requires Counted(d)
    requires id !in d.endpoints
    ensures Counted(Device(d.dns, Retain(d.endpointCount, ep), d.endpoints[id := ep]))
  {
    var eps := d.endpoints[id := ep];
    var count := Retain(d.endpointCount, ep);
    forall e | e in count ensures count[e] == |ResolversAt(eps, e)| && count[e] > 0 {
      ResolversAtSet(d.endpoints, id, ep, e);
      if e == ep {
        if ep !in d.endpointCount {
          NobodyAtUncounted(d, ep);
        }
        assert id !in ResolversAt(d.endpoints, ep);
      }
    }
    forall r | r in eps ensures eps[r] in count {
      if r != id {
        assert d.endpoints[r] in d.endpointCount;
      }
    }
  }

  lemma DetachCounted(d: Device, id: ResolverId)
    requires Counted(d)
    requires id in d.endpoints
    ensures Counted(Device(d.dns, Release(d.endpointCount, d.endpoints[id]), d.endpoints - {id}))
  {
    var ep := d.endpoints[id];
    var eps := d.endpoints - {id};
    var count := Release(d.endpointCount, ep);
    forall e | e in count ensures count[e] == |ResolversAt(eps, e)| && count[e] > 0 {
      ResolversAtErase(d.endpoints, id, e);
      if e == ep {
        assert id in ResolversAt(d.endpoints, ep);
      } else {
        assert id !in ResolversAt(d.endpoints, e);
      }
    }
    forall r | r in eps ensures eps[r] in count {
      assert d.endpoints[r] in d.endpointCount;
      if eps[r] == ep {
        ResolversAtErase(d.endpoints, id, ep);
        assert r in ResolversAt(eps, ep);
        assert id in ResolversAt(d.endpoints, ep);
        assert |ResolversAt(d.endpoints, ep)| >= 2 by {
          assert {r, id} <= ResolversAt(d.endpoints, ep);
        }
      }
    }
  }

  /**
   * Record a resolver's endpoint and count it. The flag says the endpoint was
   * not counted before, i.e. the device's endpoint set grew.
   */
  function Attach(d: Device, id: ResolverId, ep: Endpoint): (r: (Device, bool))
    requires Counted(d)
    requires id !in d.endpoints
    ensures Counted(r.0)
    ensures r.0.endpoints == d.endpoints[id := ep] && r.0.dns == d.dns
    ensures r.1 <==> ep !in EndpointSet(d)
    ensures EndpointSet(r.0) == EndpointSet(d) + {ep}
  {
    AttachCounted(d, id, ep);
    (Device(d.dns, Retain(d.endpointCount, ep), d.endpoints[id := ep]), ep !in d.endpointCount)
  }

  /**
   * Decrement the count of the resolver's endpoint, erasing it at zero, and
   * drop the resolver's entry. The flag says the count reached zero.
   */
  function Detach(d: Device, id: ResolverId): (r: (Device, bool))
    requires Counted(d)
    requires id in d.endpoints
    ensures Counted(r.0)
    ensures r.0.endpoints == d.endpoints - {id} && r.0.dns == d.dns
    ensures r.1 <==> d.endpointCount[d.endpoints[id]] == 1
    ensures EndpointSet(r.0)
            == if r.1 then EndpointSet(d) - {d.endpoints[id]} else EndpointSet(d)
  {
    var ep := d.endpoints[id];
    DetachCounted(d, id);
    (Device(d.dns, Release(d.endpointCount, ep), d.endpoints - {id}), d.endpointCount[ep] - 1 == 0)
  }

  /**
   * A known resolver now reports another endpoint: the old one is released
   * and the new one counted. The flag is set exactly when the device's set of
   * distinct endpoints changed.
   */
  function MoveEndpoint(d: Device, id: ResolverId, ep: Endpoint): (r: (Device, bool))
    requires Counted(d)
    requires id in d.endpoints && d.endpoints[id] != ep
    ensures Counted(r.0)
    ensures r.0.endpoints == d.endpoints[id := ep] && r.0.dns == d.dns
    ensures r.1 <==> EndpointSet(r.0) != EndpointSet(d)
  {
    var cur := d.endpoints[id];
    var detached := Detach(d, id);
    var attached := Attach(detached.0, id, ep);
    assert cur in EndpointSet(d);
    assert (d.endpoints - {id})[id := ep] == d.endpoints[id := ep];
    (attached.0, detached.1 || attached.1)
  }

  /**
   * The endpoint part of `chromecasts_update`: a resolver seen for the first
   * time (`known` false) has its endpoint counted; a known resolver whose
   * endpoint changed releases the old one and counts the new one. The flag
   * is set exactly when the device's set of distinct endpoints changed.
   */
  function SetEndpoint(d: Device, known: bool, id: ResolverId, ep: Endpoint): (r: (Device, bool))
    requires Counted(d)
    requires known <==> id in d.endpoints
    ensures Counted(r.0)
    ensures r.0.endpoints == d.endpoints[id := ep] && r.0.dns == d.dns
    ensures r.1 <==> EndpointSet(r.0) != EndpointSet(d)
  {
    if !known then Attach(d, id, ep)
    else if d.endpoints[id] != ep then MoveEndpoint(d, id, ep)
    else
      assert d.endpoints[id := ep] == d.endpoints;
      (d, false)
  }

  // ---------------------------------------------------------------------------
  // The finder's state

  /** A device record as the bookkeeping keeps it for `name`. */
  ghost predicate DeviceOk(cc: map<string, Device>, r2c: map<ResolverId, string>, name: string)
    requires name in cc
  {
    var d := cc[name];
    && Counted(d)
    && d.endpoints != map[]
    && (forall r :: r in d.endpoints ==> r in r2c && r.name == name)
  }

  /**
   * The bookkeeping's invariant over `chromecasts` and `resolver_to_chromecast`:
   * a resolver is mapped to the device of its own name, which records its
   * endpoint; every device has at least one resolver, each mapped back to it;
   * and each device's counts are right.
   */
  ghost predicate Linked(cc: map<string, Device>, r2c: map<ResolverId, string>) {
    && (forall r :: r in r2c ==> r2c[r] == r.name && r.name in cc && r in cc[r.name].endpoints)
    && (forall n :: n in cc ==> DeviceOk(cc, r2c, n))
  }

  /** Every resolver the bookkeeping mentions is registered. */
  ghost predicate Inv(f: Finder) {
    Linked(f.chromecasts, f.resolverToChromecast) && f.resolverToChromecast.Keys <= f.resolvers
  }

  function Empty(): (f: Finder)
    ensures Inv(f)
  {
    Finder({}, map[], map[])
  }

  /** The record for `name`, or the fresh one `chromecasts_update` would create. */
  function DeviceOf(f: Finder, name: string): Device {
    if name in f.chromecasts then f.chromecasts[name] else Device(map[], map[], map[])
  }

  lemma DeviceOfFacts(f: Finder, id: ResolverId)
    requires Linked(f.chromecasts, f.resolverToChromecast)
    ensures Counted(DeviceOf(f, id.name))
    ensures id in f.resolverToChromecast <==> id in DeviceOf(f, id.name).endpoints
  {
    if id.name in f.chromecasts {
      assert DeviceOk(f.chromecasts, f.resolverToChromecast, id.name);
    }
  }

  /** `send_update`: the reported endpoints are the key set of `endpoint_count`. */
  function Info(name: string, d: Device): ChromecastInfo {
    ChromecastInfo(name, EndpointSet(d), d.dns)
  }

  /** `add_resolver`: rejects an id that is already registered. */
  function AddResolver(f: Finder, id: ResolverId): (r: Result<Finder, LogicError>)
    ensures r.Failure? <==> id in f.resolvers
    ensures r.Failure? ==> r.error == ResolverAlreadyThere
    ensures r.Success? ==> r.value.resolvers == f.resolvers + {id}
    ensures r.Success? ==> r.value.chromecasts == f.chromecasts
                           && r.value.resolverToChromecast == f.resolverToChromecast
    ensures r.Success? && Inv(f) ==> Inv(r.value)
  {
    if id in f.resolvers then Failure(ResolverAlreadyThere)
    else Success(f.(resolvers := f.resolvers + {id}))
  }

  lemma LinkedAfterSet(f: Finder, id: ResolverId, d2: Device)
    requires Linked(f.chromecasts, f.resolverToChromecast)
    requires Counted(d2)
    requires d2.endpoints.Keys == DeviceOf(f, id.name).endpoints.Keys + {id}
    ensures Linked(f.chromecasts[id.name := d2], f.resolverToChromecast[id := id.name])
  {
    var name := id.name;
    var g := Finder(f.resolvers, f.chromecasts[name := d2], f.resolverToChromecast[id := name]);
    forall r | r in g.resolverToChromecast
      ensures g.resolverToChromecast[r] == r.name && r.name in g.chromecasts
              && r in g.chromecasts[r.name].endpoints
    {
      if r != id {
        assert r in f.resolverToChromecast;
      }
    }
    forall n | n in g.chromecasts ensures DeviceOk(g.chromecasts, g.resolverToChromecast, n) {
      if n == name {
        forall r | r in d2.endpoints ensures r in g.resolverToChromecast && r.name == name {
          if r != id {
            assert name in f.chromecasts;
            assert DeviceOk(f.chromecasts, f.resolverToChromecast, name);
          }
        }
      } else {
        assert DeviceOk(f.chromecasts, f.resolverToChromecast, n);
      }
    }
  }

  lemma LinkedAfterDetach(f: Finder, id: ResolverId, d2: Device)
    requires Linked(f.chromecasts, f.resolverToChromecast)
    requires id in f.resolverToChromecast
    requires Counted(d2)
    requires d2.endpoints.Keys == DeviceOf(f, id.name).endpoints.Keys - {id}
    requires d2.endpoints != map[]
    ensures Linked(f.chromecasts[id.name := d2], f.resolverToChromecast - {id})
  {
    ResolversAfterDetach(f, id, d2);
    DevicesAfterDetach(f, id, d2);
  }

  lemma ResolversAfterDetach(f: Finder, id: ResolverId, d2: Device)
    requires Linked(f.chromecasts, f.resolverToChromecast)
    requires d2.endpoints.Keys == DeviceOf(f, id.name).endpoints.Keys - {id}
    ensures var cc := f.chromecasts[id.name := d2];
            var r2c := f.resolverToChromecast - {id};
            forall r :: r in r2c ==> r2c[r] == r.name && r.name in cc && r in cc[r.name].endpoints
  {
  }

  lemma DevicesAfterDetach(f: Finder, id: ResolverId, d2: Device)
    requires Linked(f.chromecasts, f.resolverToChromecast)
    requires id in f.resolverToChromecast
    requires Counted(d2)
    requires d2.endpoints.Keys == DeviceOf(f, id.name).endpoints.Keys - {id}
    requires d2.endpoints != map[]
    ensures var cc := f.chromecasts[id.name := d2];
            forall n :: n in cc ==> DeviceOk(cc, f.resolverToChromecast - {id}, n)
  {
    var cc := f.chromecasts[id.name := d2];
    forall n | n in cc ensures DeviceOk(cc, f.resolverToChromecast - {id}, n) {
      DeviceOkAfterDetach(f, id, d2, n);
    }
  }

  lemma DeviceOkAfterDetach(f: Finder, id: ResolverId, d2: Device, n: string)
    requires Linked(f.chromecasts, f.resolverToChromecast)
    requires id in f.resolverToChromecast
    requires Counted(d2)
    requires d2.endpoints.Keys == DeviceOf(f, id.name).endpoints.Keys - {id}
    requires d2.endpoints != map[]
    requires n in f.chromecasts[id.name := d2]
    ensures DeviceOk(f.chromecasts[id.name := d2], f.resolverToChromecast - {id}, n)
  {
    var name := id.name;
    assert name in f.chromecasts;
    assert DeviceOk(f.chromecasts, f.resolverToChromecast, n);
    if n == name {
      forall r | r in d2.endpoints ensures r in f.resolverToChromecast - {id} && r.name == name {
        assert r in f.chromecasts[name].endpoints;
      }
    } else {
      forall r | r in f.chromecasts[n].endpoints ensures r != id {
        assert r.name == n;
      }
    }
  }

  lemma LinkedAfterDrop(f: Finder, id: ResolverId)
    requires Linked(f.chromecasts, f.resolverToChromecast)
    requires id in f.resolverToChromecast
    requires DeviceOf(f, id.name).endpoints.Keys == {id}
    ensures Linked(f.chromecasts - {id.name}, f.resolverToChromecast - {id})
  {
    var g := Finder(f.resolvers, f.chromecasts - {id.name}, f.resolverToChromecast - {id});
    forall r | r in g.resolverToChromecast ensures r.name != id.name {
      assert r in f.chromecasts[r.name].endpoints;
    }
    forall n | n in g.chromecasts ensures DeviceOk(g.chromecasts, g.resolverToChromecast, n) {
      assert DeviceOk(f.chromecasts, f.resolverToChromecast, n);
    }
  }

  /**
   * The device record `chromecasts_update` leaves for `id.name`: the new TXT
   * map, and `ep` recorded and counted for the resolver. The flag (`updated`)
   * is set exactly when the TXT map or the set of distinct endpoints changed.
   */
  function RefreshDevice(f: Finder, id: ResolverId, ep: Endpoint, dns: map<string, string>)
    : (r: (Device, bool))
    requires Linked(f.chromecasts, f.resolverToChromecast)
    ensures Counted(r.0)
    ensures r.0.endpoints == DeviceOf(f, id.name).endpoints[id := ep] && r.0.dns == dns
    ensures r.1 <==> dns != DeviceOf(f, id.name).dns
                     || EndpointSet(r.0) != EndpointSet(DeviceOf(f, id.name))
  {
    DeviceOfFacts(f, id);
    var d := DeviceOf(f, id.name);
    var moved := SetEndpoint(d.(dns := dns), id in f.resolverToChromecast, id, ep);
    (moved.0, dns != d.dns || moved.1)
  }

  /**
   * `chromecasts_update`, for a registered resolver `id` reporting endpoint
   * `ep` and TXT map `dns` for the device `id.name`; it keeps the bookkeeping
   * consistent and touches no other device. UpdateRecords and UpdateReports
   * state its effect on that device.
   */
  function ChromecastsUpdate(f: Finder, id: ResolverId, ep: Endpoint, dns: map<string, string>)
    : (r: (Finder, seq<Update>))
    requires Inv(f)
    requires id in f.resolvers
    ensures Inv(r.0)
    ensures id.name in r.0.chromecasts
    ensures r.0.chromecasts == f.chromecasts[id.name := r.0.chromecasts[id.name]]
  {
    var dev := RefreshDevice(f, id, ep, dns);
    LinkedAfterSet(f, id, dev.0);
    var g := Finder(f.resolvers, f.chromecasts[id.name := dev.0],
                    f.resolverToChromecast[id := id.name]);
    var added := id.name !in f.chromecasts;
    if added || dev.1 then
      (g, [Update(if added then NEW else UPDATE, Info(id.name, dev.0))])
    else
      (g, [])
  }

  /**
   * After an update the device of the resolver's name exists, holds the new
   * TXT map, and records `ep` for the resolver beside its other resolvers'
   * endpoints; the set of known names gains at most that name.
   */
  lemma UpdateRecords(f: Finder, id: ResolverId, ep: Endpoint, dns: map<string, string>)
    requires Inv(f)
    requires id in f.resolvers
    ensures var r := ChromecastsUpdate(f, id, ep, dns);
            && r.0.resolvers == f.resolvers
            && r.0.chromecasts.Keys == f.chromecasts.Keys + {id.name}
            && r.0.chromecasts[id.name].endpoints == DeviceOf(f, id.name).endpoints[id := ep]
            && r.0.chromecasts[id.name].dns == dns
  {
    DeviceOfFacts(f, id);
  }

  /**
   * An unknown name is reported NEW; a known one is reported UPDATE exactly
   * when its TXT map or its set of distinct endpoints changed, and otherwise
   * nothing is reported.
   */
  lemma UpdateReports(f: Finder, id: ResolverId, ep: Endpoint, dns: map<string, string>)
    requires Inv(f)
    requires id in f.resolvers
    ensures var r := ChromecastsUpdate(f, id, ep, dns);
            && id.name in r.0.chromecasts
            && (id.name !in f.chromecasts ==>
                  r.1 == [Update(NEW, Info(id.name, r.0.chromecasts[id.name]))])
            && (id.name in f.chromecasts ==>
                  (r.1 != [] <==> dns != f.chromecasts[id.name].dns
                                  || EndpointSet(r.0.chromecasts[id.name])
                                     != EndpointSet(f.chromecasts[id.name])))
            && (id.name in f.chromecasts && r.1 != [] ==>
                  r.1 == [Update(UPDATE, Info(id.name, r.0.chromecasts[id.name]))])
  {
    DeviceOfFacts(f, id);
  }

  /**
   * `chromecasts_remove`: forget a resolver. An unknown resolver (one that never
   * resolved) changes nothing; otherwise only the device of the resolver's name
   * is touched, and the bookkeeping stays consistent. What is reported is
   * stated by RemoveLastResolver and RemoveOtherResolver.
   */
  function ChromecastsRemove(f: Finder, id: ResolverId): (r: (Finder, seq<Update>))
    requires Linked(f.chromecasts, f.resolverToChromecast)
    ensures Linked(r.0.chromecasts, r.0.resolverToChromecast)
    ensures r.0.resolvers == f.resolvers
    ensures r.0.resolverToChromecast.Keys == f.resolverToChromecast.Keys - {id}
  {
    if id !in f.resolverToChromecast then (f, [])
    else
      var name := f.resolverToChromecast[id];
      assert name == id.name && name in f.chromecasts;
      DeviceOfFacts(f, id);
      var d := f.chromecasts[name];
      var detached := Detach(d, id);
      var d2 := detached.0;
      var r2c := f.resolverToChromecast - {id};
      if d2.endpoints.Keys == {} then
        assert d.endpoints.Keys == {id};
        LinkedAfterDrop(f, id);
        (Finder(f.resolvers, f.chromecasts - {name}, r2c), [Update(REMOVE, Info(name, d2))])
      else
        LinkedAfterDetach(f, id, d2);
        var g := Finder(f.resolvers, f.chromecasts[name := d2], r2c);
        if detached.1 then (g, [Update(UPDATE, Info(name, d2))]) else (g, [])
  }

  /**
   * A resolver that never resolved leaves everything as it was, and no device
   * but the one of the resolver's name is touched.
   */
  lemma RemoveTouchesOnlyItsDevice(f: Finder, id: ResolverId)
    requires Linked(f.chromecasts, f.resolverToChromecast)
    ensures id !in f.resolverToChromecast ==> ChromecastsRemove(f, id) == (f, [])
    ensures var r := ChromecastsRemove(f, id);
            forall n :: n != id.name ==>
              (n in r.0.chromecasts <==> n in f.chromecasts)
              && (n in f.chromecasts ==> r.0.chromecasts[n] == f.chromecasts[n])
  {
    if id in f.resolverToChromecast {
      assert f.resolverToChromecast[id] == id.name;
    }
  }

  /** Removing a device's last resolver erases it and reports REMOVE with no endpoints. */
  lemma RemoveLastResolver(f: Finder, id: ResolverId)
    requires Linked(f.chromecasts, f.resolverToChromecast)
    requires id in f.resolverToChromecast
    requires DeviceOf(f, id.name).endpoints.Keys == {id}
    ensures var r := ChromecastsRemove(f, id);
            id.name !in r.0.chromecasts
            && r.1 == [Update(REMOVE, ChromecastInfo(id.name, {}, DeviceOf(f, id.name).dns))]
  {
    DeviceOfFacts(f, id);
    var d := DeviceOf(f, id.name);
    var d2 := Detach(d, id).0;
    assert d2.endpoints.Keys == {};
    CountKeysAreEndpointsInUse(d2);
  }

  /**
   * Removing one of several resolvers keeps the device, without the resolver,
   * and reports UPDATE exactly when its set of distinct endpoints changed.
   */
  lemma RemoveOtherResolver(f: Finder, id: ResolverId)
    requires Linked(f.chromecasts, f.resolverToChromecast)
    requires id in f.resolverToChromecast
    requires DeviceOf(f, id.name).endpoints.Keys != {id}
    ensures var r := ChromecastsRemove(f, id);
            && r.0.resolvers == f.resolvers
            && r.0.chromecasts.Keys == f.chromecasts.Keys + {id.name}
            && r.0.chromecasts[id.name].endpoints == DeviceOf(f, id.name).endpoints - {id}
            && r.0.chromecasts[id.name].dns == DeviceOf(f, id.name).dns
            && (r.1 != [] <==> EndpointSet(r.0.chromecasts[id.name])
                               != EndpointSet(DeviceOf(f, id.name)))
            && (r.1 != [] ==> r.1 == [Update(UPDATE, Info(id.name, r.0.chromecasts[id.name]))])
  {
    DeviceOfFacts(f, id);
    var d := DeviceOf(f, id.name);
    var detached := Detach(d, id);
    assert detached.0.endpoints.Keys != {};
    assert detached.1 ==> d.endpoints[id] in EndpointSet(d);
  }

  /** `remove_resolver`: rejects an unknown id, else unregisters it and forgets it. */
  function RemoveResolver(f: Finder, id: ResolverId): (r: Result<(Finder, seq<Update>), LogicError>)
    requires Inv(f)
    ensures r.Failure? <==> id !in f.resolvers
    ensures r.Failure? ==> r.error == ResolverNotThere
    ensures r.Success? ==> Inv(r.value.0) && r.value.0.resolvers == f.resolvers - {id}
    ensures r.Success? ==> r.value == ChromecastsRemove(f.(resolvers := f.resolvers - {id}), id)
  {
    if id !in f.resolvers then Failure(ResolverNotThere)
    else
      var g := f.(resolvers := f.resolvers - {id});
      Success(ChromecastsRemove(g, id))
  }

  /** Registering and then unregistering a resolver that never resolved is a no-op. */
  lemma AddRemoveRoundTrip(f: Finder, id: ResolverId)
    requires Inv(f)
    requires id !in f.resolvers
    ensures AddResolver(f, id).Success?
    ensures RemoveResolver(AddResolver(f, id).value, id) == Success((f, []))
  {
    var g := AddResolver(f, id).value;
    assert g.(resolvers := g.resolvers - {id}) == f;
  }

  // ---------------------------------------------------------------------------
  // Avahi events

  /**
   * The browser and resolver callbacks. A browser NEW carries whether
   * `avahi_service_resolver_new` returned a resolver.
   */
  datatype Event =
    | BrowserFailure
    | BrowserNew(id: ResolverId, created: bool)
    | BrowserRemove(id: ResolverId)
    | ResolverFound(id: ResolverId, endpoint: Endpoint, txt: seq<string>)
    | ResolverFailure(id: ResolverId)

  /** Resolver callbacks only arrive for resolvers that have not been freed. */
  predicate Possible(f: Finder, ev: Event) {
    (ev.ResolverFound? || ev.ResolverFailure?) ==> ev.id in f.resolvers
  }

  /** The key set of the receiver's mirror after applying `updates`. */
  function ApplyKeys(keys: set<string>, updates: seq<Update>): set<string>
    decreases |updates|
  {
    if |updates| == 0 then keys
    else
      var u := updates[0];
      ApplyKeys(if u.kind == REMOVE then keys - {u.info.name} else keys + {u.info.name},
                updates[1..])
  }

  /** NEW only for an unknown name, UPDATE and REMOVE only for a known one. */
  predicate WellFormedStream(keys: set<string>, updates: seq<Update>)
    decreases |updates|
  {
    |updates| == 0 ||
    (var u := updates[0];
     && (u.kind == NEW <==> u.info.name !in keys)
     && (u.kind != REMOVE ==> u.info.endpoints != {})
     && WellFormedStream(if u.kind == REMOVE then keys - {u.info.name} else keys + {u.info.name},
                         updates[1..]))
  }

  /**
   * One Avahi callback (browse_callback / resolve_callback). The updates it
   * emits form a well-formed stream for the set of known names, and applying
   * them to that set gives the new set of known names; NEW and UPDATE always
   * carry at least one endpoint.
   */
  function Step(f: Finder, ev: Event): (r: Result<(Finder, seq<Update>), Thrown>)
    requires Inv(f)
    requires Possible(f, ev)
    ensures r.Success? ==> Inv(r.value.0)
    ensures r.Success? ==> WellFormedStream(f.chromecasts.Keys, r.value.1)
    ensures r.Success? ==> r.value.0.chromecasts.Keys == ApplyKeys(f.chromecasts.Keys, r.value.1)
    ensures r.Failure? <==>
              match ev
              case BrowserFailure => true
              case BrowserNew(id, created) => !created || id in f.resolvers
              case BrowserRemove(id) => id !in f.resolvers
              case ResolverFound(_, _, txt) => exists i :: 0 <= i < |txt| && '=' !in txt[i]
              case ResolverFailure(_) => false
    ensures r.Failure? ==>
              (r.error.Runtime? <==> ev.BrowserFailure? || (ev.BrowserNew? && !ev.created))
    ensures ev.BrowserFailure? ==> r == Failure(Runtime(BrowserFailed))
    ensures ev.BrowserNew? && !ev.created ==> r == Failure(Runtime(ResolverNotCreated))
  {
    match ev
    case BrowserFailure => Failure(Runtime(BrowserFailed))
    case BrowserNew(id, created) =>
      if !created then Failure(Runtime(ResolverNotCreated))
      else
        (match AddResolver(f, id)
         case Success(g) => Success((g, []))
         case Failure(e) => Failure(Logic(e)))
    case BrowserRemove(id) =>
      var r := RemoveResolver(f, id);
      if r.Success? then StreamOfRemove(f.(resolvers := f.resolvers - {id}), id); Success(r.value)
      else Failure(Logic(r.error))
    case ResolverFailure(id) =>
      var r := RemoveResolver(f, id);
      if r.Success? then StreamOfRemove(f.(resolvers := f.resolvers - {id}), id); Success(r.value)
      else Failure(Logic(r.error))
    case ResolverFound(id, ep, txt) =>
      match ParseTxt(txt)
      case Success(dns) =>
        var r := ChromecastsUpdate(f, id, ep, dns);
        StreamOfUpdate(f, id, ep, dns);
        Success(r)
      case Failure(e) => Failure(Logic(e))
  }

  lemma OneUpdate(keys: set<string>, u: Update)
    ensures WellFormedStream(keys, [u]) <==>
              (u.kind == NEW <==> u.info.name !in keys)
              && (u.kind != REMOVE ==> u.info.endpoints != {})
    ensures ApplyKeys(keys, [u])
            == if u.kind == REMOVE then keys - {u.info.name} else keys + {u.info.name}
  {
    assert [u][1..] == [];
  }

  /** A device the bookkeeping keeps always has an endpoint to report. */
  lemma KeptDeviceHasEndpoint(cc: map<string, Device>, r2c: map<ResolverId, string>, name: string)
    requires Linked(cc, r2c)
    requires name in cc
    ensures Info(name, cc[name]).endpoints != {}
  {
    var d := cc[name];
    assert DeviceOk(cc, r2c, name);
    CountKeysAreEndpointsInUse(d);
    var k :| k in d.endpoints;
    assert d.endpoints[k] in d.endpoints.Values;
  }

  lemma StreamOfUpdate(f: Finder, id: ResolverId, ep: Endpoint, dns: map<string, string>)
    requires Inv(f)
    requires id in f.resolvers
    ensures var r := ChromecastsUpdate(f, id, ep, dns);
            WellFormedStream(f.chromecasts.Keys, r.1)
            && r.0.chromecasts.Keys == ApplyKeys(f.chromecasts.Keys, r.1)
  {
    var r := ChromecastsUpdate(f, id, ep, dns);
    UpdateRecords(f, id, ep, dns);
    UpdateReports(f, id, ep, dns);
    KeptDeviceHasEndpoint(r.0.chromecasts, r.0.resolverToChromecast, id.name);
    if r.1 != [] {
      OneUpdate(f.chromecasts.Keys, r.1[0]);
    } else {
      assert f.chromecasts.Keys + {id.name} == f.chromecasts.Keys;
    }
  }

  lemma StreamOfRemove(f: Finder, id: ResolverId)
    requires Linked(f.chromecasts, f.resolverToChromecast)
    ensures var r := ChromecastsRemove(f, id);
            WellFormedStream(f.chromecasts.Keys, r.1)
            && r.0.chromecasts.Keys == ApplyKeys(f.chromecasts.Keys, r.1)
  {
    var r := ChromecastsRemove(f, id);
    RemoveTouchesOnlyItsDevice(f, id);
    if id in f.resolverToChromecast {
      assert id.name in f.chromecasts;
      if DeviceOf(f, id.name).endpoints.Keys == {id} {
        RemoveLastResolver(f, id);
        OneUpdate(f.chromecasts.Keys, r.1[0]);
        assert r.0.chromecasts.Keys == f.chromecasts.Keys - {id.name};
      } else {
        RemoveOtherResolver(f, id);
        KeptDeviceHasEndpoint(r.0.chromecasts, r.0.resolverToChromecast, id.name);
        assert r.0.chromecasts.Keys == f.chromecasts.Keys;
        if r.1 != [] {
          OneUpdate(f.chromecasts.Keys, r.1[0]);
          assert f.chromecasts.Keys + {id.name} == f.chromecasts.Keys;
        }
      }
    }
  }

  /**
   * A resolver that failed is unregistered at once; when the browser later
   * reports the service gone, `remove_resolver` no longer finds it and throws.
   */
  lemma RemoveAfterResolverFailureThrows(f: Finder, id: ResolverId)
    requires Inv(f)
    requires id !in f.resolvers
    ensures var s1 := Step(f, BrowserNew(id, true));
            s1.Success?
            && var s2 := Step(s1.value.0, ResolverFailure(id));
               s2.Success?
               && Step(s2.value.0, BrowserRemove(id)) == Failure(Logic(ResolverNotThere))
  {
    var s1 := Step(f, BrowserNew(id, true));
    assert s1.value.0.resolvers == f.resolvers + {id};
    var s2 := Step(s1.value.0, ResolverFailure(id));
    assert s2.value.0.resolvers == f.resolvers;
  }

  /**
   * The browser REMOVE as evidently intended: a resolver that is still
   * registered is removed as `remove_resolver` does, and one that is gone
   * already (its resolution failed) is ignored instead of throwing.
   */
  function BrowserRemoveTolerant(f: Finder, id: ResolverId): (r: (Finder, seq<Update>))
    requires Inv(f)
    ensures Inv(r.0) && r.0.resolvers == f.resolvers - {id}
    ensures WellFormedStream(f.chromecasts.Keys, r.1)
    ensures r.0.chromecasts.Keys == ApplyKeys(f.chromecasts.Keys, r.1)
    ensures id in f.resolvers ==> Step(f, BrowserRemove(id)) == Success(r)
    ensures id !in f.resolvers ==> r == (f, [])
  {
    if id in f.resolvers then
      StreamOfRemove(f.(resolvers := f.resolvers - {id}), id);
      RemoveResolver(f, id).value
    else (f, [])
  }

  /**
   * With the tolerant REMOVE, a service whose resolution failed can leave the
   * network: NEW, FAILURE and REMOVE bring the finder back where it started
   * and report nothing.
   */
  lemma FailedServiceLeavesQuietly(f: Finder, id: ResolverId)
    requires Inv(f)
    requires id !in f.resolvers
    ensures var s1 := Step(f, BrowserNew(id, true));
            s1.Success? && s1.value.1 == []
            && var s2 := Step(s1.value.0, ResolverFailure(id));
               s2.Success? && s2.value.1 == []
               && BrowserRemoveTolerant(s2.value.0, id) == (s2.value.0, [])
               && s2.value.0 == f
  {
    var s1 := Step(f, BrowserNew(id, true));
    assert s1.value.0.resolvers == f.resolvers + {id};
    AddRemoveRoundTrip(f, id);
  }
}
