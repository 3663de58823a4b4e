/**
 The monitor's tables and services, changed in place
 (shill-nm-adapter/shill_nm_adapter.py:840-844, 1023-1035, 1122-1247, 1379-1401), and
 each method tied to the event it carries out.
 */
module NetworkMonitor {
  import opened Sequences
  import opened Wrappers
  import opened Networks
  import opened NetworkRuns

  // ---------------------------------------------------------------------
  // One more service dropped, one more judged.

  lemma DropStep(net: Net, gone: set<Path>, p: Path)
    requires p !in gone
    ensures Drop(DropAll(net, gone), p) == DropAll(net, gone + {p})
  {
    if p in net.services {
      assert LostAps(net, gone + {p}) == LostAps(net, gone) + net.services[p].aps;
    } else {
      assert LostAps(net, gone + {p}) == LostAps(net, gone);
    }
    assert Drop(DropAll(net, gone), p).services == DropAll(net, gone + {p}).services;
    assert Drop(DropAll(net, gone), p).apIndex == DropAll(net, gone + {p}).apIndex;
  }

  function JudgeSome(services: map<Path, Service>, done: set<Path>, kind: Kind, st: Status): map<Path, Service> {
    map p | p in services :: if p in done then Judged(services[p], kind, st) else services[p]
  }

  lemma JudgeStep(was: map<Path, Service>, done: set<Path>, p: Path, kind: Kind, st: Status)
    requires p !in done
    ensures JudgeSome(was, done + {p}, kind, st) ==
      if p in was then JudgeSome(was, done, kind, st)[p := Judged(was[p], kind, st)] else JudgeSome(was, done, kind, st)
    ensures p in was ==> JudgeSome(was, done, kind, st)[p] == was[p]
  {
  }

  // ---------------------------------------------------------------------
  // Grouping.

  method Group(scan: Scan) returns (groups: map<Ssid, seq<Entry>>)
    ensures groups.Keys == Ssids(scan)
    ensures forall ssid :: ssid in groups ==> groups[ssid] == EntriesOf(scan, scan.order, ssid)
  {
    groups := map[];
    for i := 0 to |scan.order|
      invariant forall ssid :: ssid in groups ==> groups[ssid] == EntriesOf(scan, scan.order[..i], ssid) != []
      invariant forall ssid :: ssid !in groups ==> EntriesOf(scan, scan.order[..i], ssid) == []
    {
      var ap := scan.order[i];
      assert scan.order[..i + 1][..i] == scan.order[..i];
      if ap in scan.air && scan.air[ap].ssid != "" {
        var ssid := scan.air[ap].ssid;
        if ssid !in groups {
          groups := groups[ssid := []];
        }
        groups := groups[ssid := groups[ssid] + [Entry(ap, scan.air[ap])]];
      }
    }
    assert scan.order[..|scan.order|] == scan.order;
    forall ssid
      ensures ssid in groups <==> ssid in Ssids(scan)
    {
      EntriesAre(scan, scan.order, ssid);
      if ssid in Ssids(scan) {
        HeardNetworkHasEntries(scan, ssid);
      }
      forall e | e in EntriesOf(scan, scan.order, ssid)
        ensures ssid in Ssids(scan)
      {
        assert e.ap in HeardOf(scan);
      }
      assert ssid in groups ==> groups[ssid][0] in EntriesOf(scan, scan.order, ssid);
    }
  }

  lemma SetTwice<K, V>(m: map<K, V>, k: K, a: V, b: V)
    ensures m[k := a][k := b] == m[k := b]
  {
  }

  lemma UnlistedDrops(net: Net, dev: Device, gone: set<Path>)
    ensures DropAll(net.(listed := net.listed - {dev}), gone) == DropAll(net, gone).(listed := net.listed - {dev})
  {
    assert LostAps(net.(listed := net.listed - {dev}), gone) == LostAps(net, gone);
  }

  lemma OneDone<T>(all: set<T>, todo: set<T>, x: T)
    requires todo <= all && x in todo
    ensures all - (todo - {x}) == (all - todo) + {x}
  {
  }

  /** A list of what has been done. */
  ghost predicate Lists(list: seq<Ssid>, all: set<Ssid>, todo: set<Ssid>) {
    Distinct(list) && forall s :: s in list <==> s in all && s !in todo
  }

  lemma ListsOneMore(list: seq<Ssid>, all: set<Ssid>, todo: set<Ssid>, ssid: Ssid)
    requires Lists(list, all, todo) && todo <= all && ssid in todo
    ensures Lists(list + [ssid], all, todo - {ssid})
  {
    assert ssid !in list;
  }

  lemma EachOneMore(net: Net, dev: Device, scan: Scan, list: seq<Ssid>, ssid: Ssid)
    ensures OfferEach(net, dev, scan, list + [ssid]) ==
      OfferOne(OfferEach(net, dev, scan, list), dev, ssid, EntriesOf(scan, scan.order, ssid), SavedFor(scan, ssid))
  {
    assert (list + [ssid])[..|list|] == list;
  }

  // ---------------------------------------------------------------------
  // The objects.

  class ServiceObject {
    const path: Path
    var device: Device
    var aps: set<Ap>
    var connection: string
    var ssid: Ssid
    var strength: nat
    var lock: Lock
    var known: bool
    var needsPassphrase: bool
    var state: Shown
    var error: string

    ghost function View(): Service
      reads this
    {
      Service(device, aps, connection, ssid, strength, lock, known, needsPassphrase, state, error)
    }

    constructor (at: Path, dev: Device, apPaths: set<Ap>, saved: string)
      ensures path == at && View() == BLANK.(device := dev, aps := apPaths, connection := saved)
    {
      path, device, aps, connection := at, dev, apPaths, saved;
      ssid, strength, lock, known := "", 0, BLANK.lock, false;
      needsPassphrase, state, error := false, Idle, "";
    }

    method SetIdentity(dev: Device, apPaths: set<Ap>, saved: string)
      modifies this
      ensures View() == old(View()).(device := dev, aps := apPaths, connection := saved)
    {
      device, aps, connection := dev, apPaths, saved;
    }

    method SetNetwork(name: Ssid, best: Seen, saved: string)
      modifies this
      ensures View() == old(View()).(ssid := name, strength := best.strength, lock := best.lock, known := saved != "",
                                     needsPassphrase := best.lock.required && saved == "")
    {
      ssid, strength, lock, known := name, best.strength, best.lock, saved != "";
      needsPassphrase := best.lock.required && saved == "";
    }

    method SetProfile(saved: string)
      modifies this
      ensures View() == old(View()).(known := saved != "")
    {
      known := saved != "";
    }

    method SetFailure(why: string)
      modifies this
      ensures View() == old(View()).(error := why, state := Failure,
                                     needsPassphrase := old(needsPassphrase) || why == BAD_PASSPHRASE)
    {
      error, state := why, Failure;
      if why == BAD_PASSPHRASE {
        needsPassphrase := true;
      }
    }

    method ClearError()
      modifies this
      ensures View() == old(View()).(error := "")
    {
      error := "";
    }

    method Forget()
      modifies this
      ensures View() == old(View()).(connection := "", error := "")
    {
      connection := "";
      ClearError();
    }

    method SetState(s: Shown)
      modifies this
      ensures View() == old(View()).(state := s)
    {
      state := s;
    }

    method Judge(kind: Kind, st: Status)
      modifies this
      ensures View() == Judged(old(View()), kind, st)
    {
      var active := (kind.Cable? && st.connection != "" && st.connection != "/")
        || (connection != "" && (connection == st.connection || connection == st.settings))
        || st.ap in aps;
      if st.state == FAILED && active {
        SetFailure(FailureFor(st.reason));
      } else {
        if active {
          ClearError();
        }
        SetState(ServiceState(st.state, active));
      }
    }
  }

  class Monitor {
    var devices: map<Device, Info>
    var services: map<Path, ServiceObject>
    var listed: map<Device, set<Path>>
    var apIndex: map<Ap, Path>

    /** What the services show. */
    ghost var shown: map<Path, Service>

    /** Every service object there has been. */
    ghost var objects: set<ServiceObject>

    constructor ()
      ensures Valid() && View() == EMPTY
    {
      devices, services, listed, apIndex := map[], map[], map[], map[];
      shown, objects := map[], {};
    }

    /** Each service is an object of its own, knows its place and shows what is noted for it. */
    ghost predicate Valid()
      reads this, objects
    {
      && shown.Keys == services.Keys
      && (forall p :: p in services ==>
           services[p] in objects && services[p].path == p && services[p].View() == shown[p])
    }

    ghost function View(): Net
      reads this
    {
      Net(devices, shown, listed, apIndex)
    }

    /** Finds the service at a place or makes it, and tells it who it is. */
    method Identify(p: Path, dev: Device, aps: set<Ap>, saved: string)
      requires Valid()
      modifies `services, `shown, `objects, objects
      ensures Valid() && p in services && fresh(objects - old(objects))
      ensures shown == old(shown)[p := Before(old(shown), p).(device := dev, aps := aps, connection := saved)]
    {
      if p !in services {
        Make(p, dev, aps, saved);
      } else {
        Rename(p, dev, aps, saved);
      }
    }

    method Rename(p: Path, dev: Device, aps: set<Ap>, saved: string)
      requires Valid() && p in services
      modifies `shown, services[p]
      ensures Valid() && shown == old(shown)[p := old(shown)[p].(device := dev, aps := aps, connection := saved)]
    {
      services[p].SetIdentity(dev, aps, saved);
      shown := shown[p := services[p].View()];
    }

    method Make(p: Path, dev: Device, aps: set<Ap>, saved: string)
      requires Valid() && p !in services
      modifies `services, `shown, `objects
      ensures Valid() && services.Keys == old(services.Keys) + {p} && fresh(objects - old(objects))
      ensures shown == old(shown)[p := BLANK.(device := dev, aps := aps, connection := saved)]
    {
      var service := new ServiceObject(p, dev, aps, saved);
      services, objects := services[p := service], objects + {service};
      shown := shown[p := service.View()];
    }

    /** Brings the service of a network up to date. */
    method Offer(dev: Device, ssid: Ssid, entries: seq<Entry>, saved: string)
      requires Valid()
      modifies `services, `shown, `objects, objects
      ensures Valid() && fresh(objects - old(objects))
      ensures shown ==
        old(shown)[Wifi(dev, ssid) := Offered(Before(old(shown), Wifi(dev, ssid)), dev, ssid, entries, saved)]
    {
      var p := Wifi(dev, ssid);
      ghost var named := Before(shown, p).(device := dev, aps := ApsOf(entries), connection := saved);
      Identify(p, dev, ApsOf(entries), saved);
      Describe(p, ssid, BestOf(entries), saved);
      SetTwice(old(shown), p, named, Offered(Before(old(shown), p), dev, ssid, entries, saved));
    }

    method Describe(p: Path, ssid: Ssid, best: Seen, saved: string)
      requires Valid() && p in services
      modifies `shown, services[p]
      ensures Valid() &&
        shown == old(shown)[p := old(shown)[p].(ssid := ssid, strength := best.strength, lock := best.lock,
                                      known := saved != "", needsPassphrase := best.lock.required && saved == "")]
    {
      services[p].SetNetwork(ssid, best, saved);
      shown := shown[p := services[p].View()];
    }

    method DescribeCable(p: Path, saved: string)
      requires Valid() && p in services
      modifies `shown, services[p]
      ensures Valid() && shown == old(shown)[p := old(shown)[p].(known := saved != "")]
    {
      services[p].SetProfile(saved);
      shown := shown[p := services[p].View()];
    }

    method IndexEntries(p: Path, entries: seq<Entry>)
      modifies `apIndex
      ensures apIndex == Noted(old(apIndex), entries, p)
    {
      for i := 0 to |entries|
        invariant apIndex == Noted(old(apIndex), entries[..i], p)
      {
        assert entries[..i + 1][..i] == entries[..i];
        apIndex := apIndex[entries[i].ap := p];
      }
      assert entries[..|entries|] == entries;
    }

    method DropService(p: Path)
      requires Valid()
      modifies `services, `apIndex, `shown
      ensures Valid()
      ensures View() == Drop(old(View()), p)
    {
      if p !in services {
        return;
      }
      var aps := services[p].aps;
      services, shown := services - {p}, shown - {p};
      apIndex := apIndex - aps;
    }

    method DropServices(gone: set<Path>)
      requires Valid()
      modifies `services, `apIndex, `shown
      ensures Valid()
      ensures View() == DropAll(old(View()), gone)
    {
      var todo := gone;
      ghost var net := View();
      assert LostAps(net, {}) == {} && DropAll(net, gone - gone) == net;
      while todo != {}
        invariant Valid() && todo <= gone
        invariant View() == DropAll(net, gone - todo)
        decreases |todo|
      {
        var p :| p in todo;
        DropStep(net, gone - todo, p);
        OneDone(gone, todo, p);
        DropService(p);
        todo := todo - {p};
      }
      assert gone - {} == gone;
    }

    method OfferGroups(dev: Device, scan: Scan)
      requires Valid()
      modifies `services, `apIndex, `shown, `objects, objects
      ensures Valid() && fresh(objects - old(objects))
      ensures View() == OfferAll(old(View()), dev, scan)
    {
      var groups := Group(scan);
      ghost var net := View();
      var todo := groups.Keys;
      ghost var list: seq<Ssid> := [];
      while todo != {}
        invariant Valid() && fresh(objects - old(objects))
        invariant todo <= groups.Keys && Lists(list, groups.Keys, todo)
        invariant View() == OfferEach(net, dev, scan, list)
        decreases |todo|
      {
        var ssid :| ssid in todo;
        OfferNetwork(dev, ssid, groups[ssid], SavedFor(scan, ssid));
        EachOneMore(net, dev, scan, list, ssid);
        ListsOneMore(list, groups.Keys, todo, ssid);
        todo, list := todo - {ssid}, list + [ssid];
      }
      assert SetOf(list) == Ssids(scan);
      OfferedIsAll(net, dev, scan, list);
    }

    /** One network's service and the entries of its access points. */
    method OfferNetwork(dev: Device, ssid: Ssid, entries: seq<Entry>, saved: string)
      requires Valid()
      modifies `services, `apIndex, `shown, `objects, objects
      ensures Valid() && fresh(objects - old(objects))
      ensures View() == OfferOne(old(View()), dev, ssid, entries, saved)
    {
      Offer(dev, ssid, entries, saved);
      IndexEntries(Wifi(dev, ssid), entries);
    }

    method RefreshStates(dev: Device, status: Option<Status>)
      requires Valid()
      modifies `devices, `shown, objects
      ensures Valid() && View() == Refresh(old(View()), dev, status)
    {
      if dev !in devices {
        return;
      }
      var info := devices[dev];
      var st := Reading(info, status);
      devices := devices[dev := info.(state := st.state)];
      var all := if dev in listed then listed[dev] else {};
      JudgeAll(all, info.kind, st);
      assert shown == Refresh(old(View()), dev, status).services;
    }

    method JudgeAll(all: set<Path>, kind: Kind, st: Status)
      requires Valid()
      modifies `shown, objects
      ensures Valid() && shown == JudgeSome(old(shown), all, kind, st)
    {
      var todo := all;
      ghost var was := shown;
      assert shown == JudgeSome(was, all - todo, kind, st);
      while todo != {}
        invariant Valid() && todo <= all
        invariant shown == JudgeSome(was, all - todo, kind, st)
        decreases |todo|
      {
        var p :| p in todo;
        JudgeStep(was, all - todo, p, kind, st);
        OneDone(all, todo, p);
        JudgeIfThere(p, kind, st);
        todo := todo - {p};
      }
      assert all - todo == all;
    }

    method JudgeIfThere(p: Path, kind: Kind, st: Status)
      requires Valid()
      modifies `shown, objects
      ensures Valid()
      ensures shown == if p in old(shown) then old(shown)[p := Judged(old(shown)[p], kind, st)] else old(shown)
    {
      if p in services {
        JudgeOne(p, kind, st);
      }
    }

    method JudgeOne(p: Path, kind: Kind, st: Status)
      requires Valid() && p in services
      modifies `shown, services[p]
      ensures Valid() && shown == old(shown)[p := Judged(old(shown)[p], kind, st)]
    {
      services[p].Judge(kind, st);
      shown := shown[p := services[p].View()];
    }

    method SyncAccessPoints(dev: Device, scan: Scan, status: Option<Status>)
      requires Valid()
      modifies this, objects
      ensures Valid() && fresh(objects - old(objects))
      ensures View() == SyncAir(old(View()), dev, scan, status)
    {
      if dev !in devices {
        return;
      }
      var before := if dev in listed then listed[dev] else {};
      var current := Current(dev, scan);
      OfferGroups(dev, scan);
      DropServices(before - current);
      listed := listed[dev := current];
      assert View() == Settled(old(View()), dev, scan);
      RefreshStates(dev, status);
    }

    method SyncEthernet(dev: Device, saved: string, status: Option<Status>)
      requires Valid()
      modifies this, objects
      ensures Valid() && fresh(objects - old(objects))
      ensures View() == SyncCable(old(View()), dev, saved, status)
    {
      if dev !in devices {
        return;
      }
      OfferCable(dev, saved);
      RefreshStates(dev, status);
    }

    method OfferCable(dev: Device, saved: string)
      requires Valid()
      modifies `services, `listed, `shown, `objects, objects
      ensures Valid() && fresh(objects - old(objects))
      ensures View() == Cabled(old(View()), dev, saved)
    {
      WireService(Wired(dev), dev, saved);
      listed := listed[dev := {Wired(dev)}];
    }

    method WireService(p: Path, dev: Device, saved: string)
      requires Valid()
      modifies `services, `shown, `objects, objects
      ensures Valid() && fresh(objects - old(objects))
      ensures shown ==
        old(shown)[p := Before(old(shown), p).(device := dev, aps := {}, connection := saved, known := saved != "")]
    {
      ghost var named := Before(shown, p).(device := dev, aps := {}, connection := saved);
      Identify(p, dev, {}, saved);
      DescribeCable(p, saved);
      SetTwice(old(shown), p, named, named.(known := saved != ""));
    }

    method RemoveDev(dev: Device)
      requires Valid()
      modifies this
      ensures Valid() && View() == Next(old(View()), RemoveDevice(dev))
    {
      var gone := if dev in listed then listed[dev] else {};
      UnlistedDrops(View(), dev, gone);
      Unlist(dev);
      DropServices(gone);
      PopDevice(dev);
    }

    method Unlist(dev: Device)
      requires Valid()
      modifies `listed
      ensures Valid() && listed == old(listed) - {dev}
    {
      listed := listed - {dev};
    }

    method PopDevice(dev: Device)
      requires Valid()
      modifies `devices
      ensures Valid() && devices == old(devices) - {dev}
    {
      devices := devices - {dev};
    }

    /** Adds a device, or reads it again. */
    method AddDevice(dev: Device, info: Info, scan: Scan, saved: string, status: Option<Status>)
      requires Valid()
      modifies this, objects
      ensures Valid() && fresh(objects - old(objects))
      ensures info.kind.Radio? ==> View() == Next(old(View()), AddRadio(dev, info.state, scan, status))
      ensures info.kind.Cable? ==> View() == Next(old(View()), AddCable(dev, info.state, saved, status))
    {
      devices := devices[dev := info];
      assert info == Info(info.kind, info.state);
      assert View() == old(View()).(devices := devices);
      if info.kind.Radio? {
        SyncAccessPoints(dev, scan, status);
      } else {
        SyncEthernet(dev, saved, status);
      }
    }

    /** Removes a service; one with access points in range stays and is forgotten. */
    method RemoveServiceAt(p: Path)
      requires Valid()
      modifies `services, `apIndex, `shown, objects
      ensures Valid() && View() == Next(old(View()), RemoveService(p))
    {
      if p !in services {
        return;
      }
      if p.Wifi? && services[p].aps != {} {
        Forget(p);
      } else {
        DropService(p);
      }
    }

    method Forget(p: Path)
      requires Valid() && p in services
      modifies `shown, services[p]
      ensures Valid() && shown == old(shown)[p := old(shown)[p].(connection := "", error := "")]
    {
      services[p].Forget();
      shown := shown[p := services[p].View()];
    }
  }
}
