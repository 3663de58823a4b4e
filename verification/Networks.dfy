/**
 What Shill shows of NetworkManager's devices
 (shill-nm-adapter/shill_nm_adapter.py:407-438, 840-844, 1030-1035, 1122-1247, 1393-1401):
 the tables, and each event as a function of them. Hashed service identities are
 taken as distinct, so a service's place is named by what is hashed.
 */
module Networks {
  import opened Sequences
  import opened Wrappers

  type Device = string
  type Ap = string
  type Ssid = string

  /** Where a service lives on the bus. */
  datatype Path = Wifi(device: Device, ssid: Ssid) | Wired(device: Device) | Configured(guid: string)

  datatype Kind = Radio | Cable

  datatype Info = Info(kind: Kind, state: int)

  datatype Lock = Lock(security: string, category: string, required: bool)

  /** What can be read of an access point. */
  datatype Seen = Seen(ssid: Ssid, strength: nat, lock: Lock)

  datatype Entry = Entry(ap: Ap, seen: Seen)

  datatype Shown = Idle | Association | Configuration | Ready | Online | Failure

  datatype Service = Service(
    device: Device, aps: set<Ap>, connection: string, ssid: Ssid, strength: nat, lock: Lock, known: bool,
    needsPassphrase: bool, state: Shown, error: string)

  datatype Net = Net(
    devices: map<Device, Info>, services: map<Path, Service>, listed: map<Device, set<Path>>, apIndex: map<Ap, Path>)

  /** One reading of the air: the access points listed, in order, what could be read of
      them, and the saved connection for each network. */
  datatype Scan = Scan(order: seq<Ap>, air: map<Ap, Seen>, saved: map<Ssid, string>)

  /** One reading of a device. */
  datatype Status = Status(state: int, connection: string, settings: string, ap: Ap, reason: int)

  function Listed(net: Net, dev: Device): set<Path> {
    if dev in net.listed then net.listed[dev] else {}
  }

  // ---------------------------------------------------------------------
  // Grouping.

  predicate Heard(scan: Scan, ap: Ap) {
    ap in scan.air && scan.air[ap].ssid != ""
  }

  /** The access points of one network, in the order listed. */
  function EntriesOf(scan: Scan, order: seq<Ap>, ssid: Ssid): seq<Entry> {
    if order == [] then []
    else
      var ap, before := order[|order| - 1], EntriesOf(scan, order[..|order| - 1], ssid);
      if Heard(scan, ap) && scan.air[ap].ssid == ssid then before + [Entry(ap, scan.air[ap])] else before
  }

  function InRange(scan: Scan, ssid: Ssid): set<Ap> {
    set ap | ap in scan.order && Heard(scan, ap) && scan.air[ap].ssid == ssid
  }

  function HeardIn(scan: Scan, order: seq<Ap>): set<Ap> {
    set ap | ap in order && Heard(scan, ap)
  }

  function HeardOf(scan: Scan): set<Ap> {
    HeardIn(scan, scan.order)
  }

  function SsidsOf(scan: Scan, heard: set<Ap>): set<Ssid> {
    set ap | ap in heard && ap in scan.air :: scan.air[ap].ssid
  }

  function Ssids(scan: Scan): set<Ssid> {
    SsidsOf(scan, HeardOf(scan))
  }

  function Places(dev: Device, ssids: set<Ssid>): set<Path> {
    set ssid | ssid in ssids :: Wifi(dev, ssid)
  }

  function ApsOf(entries: seq<Entry>): set<Ap> {
    set e | e in entries :: e.ap
  }

  function Insert(e: Entry, entries: seq<Entry>): (r: seq<Entry>)
    ensures |r| == 1 + |entries|
  {
    if entries == [] || e.seen.strength >= entries[0].seen.strength then [e] + entries
    else [entries[0]] + Insert(e, entries[1..])
  }

  /** Sorted by falling strength; equals stay in order. */
  function StrongestFirst(entries: seq<Entry>): (r: seq<Entry>)
    ensures |r| == |entries|
  {
    if entries == [] then [] else Insert(entries[0], StrongestFirst(entries[1..]))
  }

  const NOTHING := Seen("", 0, Lock("none", "none", false))

  /** The strongest of some entries. */
  function BestOf(entries: seq<Entry>): Seen {
    if entries == [] then NOTHING else StrongestFirst(entries)[0].seen
  }

  lemma {:induction false} InsertAdds(e: Entry, entries: seq<Entry>)
    ensures forall x :: x in Insert(e, entries) <==> x == e || x in entries
  {
    if entries != [] && e.seen.strength < entries[0].seen.strength {
      InsertAdds(e, entries[1..]);
    }
  }

  /** The first of the sorted entries is one of the strongest, and the sort adds and
      loses nothing. */
  lemma {:induction false} StrongestIsFirst(entries: seq<Entry>)
    requires entries != []
    ensures forall x :: x in StrongestFirst(entries) <==> x in entries
    ensures StrongestFirst(entries)[0] in entries
    ensures forall x :: x in entries ==> x.seen.strength <= StrongestFirst(entries)[0].seen.strength
  {
    var rest := StrongestFirst(entries[1..]);
    InsertAdds(entries[0], rest);
    if |entries| > 1 {
      StrongestIsFirst(entries[1..]);
    }
    assert forall x :: x in entries <==> x == entries[0] || x in entries[1..];
  }

  // ---------------------------------------------------------------------
  // Offering, dropping and judging services.

  function SavedFor(scan: Scan, ssid: Ssid): string {
    if ssid in scan.saved then scan.saved[ssid] else ""
  }

  const BLANK := Service("", {}, "", "", 0, NOTHING.lock, false, false, Idle, "")

  function Before(services: map<Path, Service>, p: Path): Service {
    if p in services then services[p] else BLANK
  }

  /** A network's service, made or brought up to date from its access points. */
  function Offered(was: Service, dev: Device, ssid: Ssid, entries: seq<Entry>, saved: string): Service {
    var best := BestOf(entries);
    Service(dev, ApsOf(entries), saved, ssid, best.strength, best.lock, saved != "",
            best.lock.required && saved == "", was.state, was.error)
  }

  lemma {:induction false} EntriesAre(scan: Scan, order: seq<Ap>, ssid: Ssid)
    ensures forall e :: e in EntriesOf(scan, order, ssid) <==>
      e.ap in order && Heard(scan, e.ap) && scan.air[e.ap].ssid == ssid && e.seen == scan.air[e.ap]
  {
    if order != [] {
      var front := order[..|order| - 1];
      EntriesAre(scan, front, ssid);
      assert forall ap :: ap in order <==> ap in front || ap == order[|order| - 1];
    }
  }

  lemma HeardNetworkHasEntries(scan: Scan, ssid: Ssid)
    requires ssid in Ssids(scan)
    ensures EntriesOf(scan, scan.order, ssid) != []
  {
    EntriesAre(scan, scan.order, ssid);
    var ap :| ap in HeardOf(scan) && scan.air[ap].ssid == ssid;
    assert Entry(ap, scan.air[ap]) in EntriesOf(scan, scan.order, ssid);
  }

  function OfferedBy(net: Net, dev: Device, scan: Scan, ssid: Ssid): Service {
    Offered(Before(net.services, Wifi(dev, ssid)), dev, ssid, EntriesOf(scan, scan.order, ssid), SavedFor(scan, ssid))
  }

  function Current(dev: Device, scan: Scan): set<Path> {
    Places(dev, Ssids(scan))
  }

  function Noted(idx: map<Ap, Path>, entries: seq<Entry>, p: Path): map<Ap, Path> {
    if entries == [] then idx
    else Noted(idx, entries[..|entries| - 1], p)[entries[|entries| - 1].ap := p]
  }

  /** One network's service and the entries of its access points. */
  function OfferOne(net: Net, dev: Device, ssid: Ssid, entries: seq<Entry>, saved: string): Net {
    var p := Wifi(dev, ssid);
    net.(services := net.services[p := Offered(Before(net.services, p), dev, ssid, entries, saved)],
         apIndex := Noted(net.apIndex, entries, p))
  }

  function SetOf(list: seq<Ssid>): set<Ssid> {
    set ssid | ssid in list
  }

  /** The networks of a list, one after the other. */
  function OfferEach(net: Net, dev: Device, scan: Scan, list: seq<Ssid>): Net {
    if list == [] then net
    else
      var ssid := list[|list| - 1];
      OfferOne(OfferEach(net, dev, scan, list[..|list| - 1]), dev, ssid, EntriesOf(scan, scan.order, ssid),
        SavedFor(scan, ssid))
  }

  /** The networks heard, each where it is first heard. */
  function SsidList(scan: Scan, order: seq<Ap>): seq<Ssid> {
    if order == [] then []
    else
      var before, ap := SsidList(scan, order[..|order| - 1]), order[|order| - 1];
      if Heard(scan, ap) && scan.air[ap].ssid !in before then before + [scan.air[ap].ssid] else before
  }

  function OfferAll(net: Net, dev: Device, scan: Scan): Net {
    OfferEach(net, dev, scan, SsidList(scan, scan.order))
  }

  /** Drops one service, and whatever the index says of its access points. */
  function Drop(net: Net, p: Path): Net {
    if p in net.services then
      net.(services := net.services - {p}, apIndex := net.apIndex - net.services[p].aps)
    else net
  }

  function LostAps(net: Net, gone: set<Path>): set<Ap> {
    set p, ap | p in gone && p in net.services && ap in net.services[p].aps :: ap
  }

  function DropAll(net: Net, gone: set<Path>): Net {
    net.(services := net.services - gone, apIndex := net.apIndex - LostAps(net, gone))
  }

  const PREPARE := 40
  const CONFIG := 50
  const NEED_AUTH := 60
  const IP_CONFIG := 70
  const IP_CHECK := 80
  const SECONDARIES := 90
  const ACTIVATED := 100
  const DEACTIVATING := 110
  const FAILED := 120
  const DISCONNECTED := 30

  function DeviceState(state: int, active: bool): Shown {
    if state == FAILED then (if active then Failure else Idle)
    else if state == PREPARE || state == CONFIG || state == NEED_AUTH then Association
    else if state == IP_CONFIG || state == IP_CHECK || state == SECONDARIES then Configuration
    else if active && state == ACTIVATED then Online
    else if state >= DEACTIVATING then Idle
    else if state >= DISCONNECTED then Ready else Idle
  }

  function ServiceState(state: int, active: bool): Shown {
    if !active then Idle else DeviceState(state, true)
  }

  const BAD_PASSPHRASE := "bad-passphrase"

  function FailureFor(reason: int): string {
    if reason == 7 || reason == 9 || reason == 10 then BAD_PASSPHRASE
    else if reason == 11 || reason == 8 then "not-associated"
    else if reason == 53 then "out-of-range"
    else "connect-failed"
  }

  predicate Named(connection: string) {
    connection != "" && connection != "/"
  }

  /** What is read of a device, or what is left when it cannot be read. */
  function Reading(info: Info, status: Option<Status>): Status {
    if status.None? then Status(info.state, "/", "", "/", 0)
    else
      var st := status.value;
      st.(settings := if Named(st.connection) then st.settings else "", ap := if info.kind.Radio? then st.ap else "/")
  }

  /** Whether the device is on this service's network. */
  predicate Active(s: Service, kind: Kind, st: Status) {
    || (kind.Cable? && Named(st.connection))
    || (s.connection != "" && (s.connection == st.connection || s.connection == st.settings))
    || st.ap in s.aps
  }

  function Judged(s: Service, kind: Kind, st: Status): Service {
    var active := Active(s, kind, st);
    if st.state == FAILED && active then
      var why := FailureFor(st.reason);
      s.(error := why, state := Failure, needsPassphrase := s.needsPassphrase || why == BAD_PASSPHRASE)
    else
      s.(error := if active then "" else s.error, state := ServiceState(st.state, active))
  }

  function Refresh(net: Net, dev: Device, status: Option<Status>): Net {
    if dev !in net.devices then net
    else
      var info := net.devices[dev];
      var st := Reading(info, status);
      net.(devices := net.devices[dev := info.(state := st.state)],
           services := map p | p in net.services ::
             if p in Listed(net, dev) then Judged(net.services[p], info.kind, st) else net.services[p])
  }

  /** `after` is `net` with the networks of `heard` offered, and nothing else. */
  ghost predicate IsOffered(net: Net, after: Net, dev: Device, scan: Scan, heard: set<Ap>) {
    && after.devices == net.devices && after.listed == net.listed
    && ServicesOffered(net, after.services, dev, scan, SsidsOf(scan, heard))
    && IndexOffered(net.apIndex, after.apIndex, dev, scan, heard)
  }

  ghost predicate ServicesOffered(net: Net, after: map<Path, Service>, dev: Device, scan: Scan, ssids: set<Ssid>) {
    && after.Keys == net.services.Keys + Places(dev, ssids)
    && (forall ssid :: ssid in ssids ==> after[Wifi(dev, ssid)] == OfferedBy(net, dev, scan, ssid))
    && (forall p :: p in net.services && p !in Places(dev, ssids) ==> after[p] == net.services[p])
  }

  ghost predicate IndexOffered(idx: map<Ap, Path>, after: map<Ap, Path>, dev: Device, scan: Scan, heard: set<Ap>) {
    && after.Keys == idx.Keys + (heard * scan.air.Keys)
    && (forall ap :: ap in heard && ap in scan.air ==> after[ap] == Wifi(dev, scan.air[ap].ssid))
    && (forall ap :: ap in idx && ap !in heard * scan.air.Keys ==> after[ap] == idx[ap])
  }

  lemma {:induction false} SsidListIs(scan: Scan, order: seq<Ap>)
    ensures Distinct(SsidList(scan, order))
    ensures SetOf(SsidList(scan, order)) == SsidsOf(scan, HeardIn(scan, order))
  {
    if order != [] {
      var front, ap := order[..|order| - 1], order[|order| - 1];
      SsidListIs(scan, front);
      assert forall x :: x in order <==> x in front || x == ap;
      if Heard(scan, ap) {
        assert HeardIn(scan, order) == HeardIn(scan, front) + {ap};
        assert SsidsOf(scan, HeardIn(scan, order)) == SsidsOf(scan, HeardIn(scan, front)) + {scan.air[ap].ssid};
        assert scan.air[ap].ssid in SsidList(scan, front) <==> scan.air[ap].ssid in SetOf(SsidList(scan, front));
        assert SetOf(SsidList(scan, front) + [scan.air[ap].ssid]) == SetOf(SsidList(scan, front)) + {scan.air[ap].ssid};
      } else {
        assert HeardIn(scan, order) == HeardIn(scan, front);
      }
    }
  }

  lemma {:induction false} NotedIs(idx: map<Ap, Path>, entries: seq<Entry>, p: Path)
    ensures Noted(idx, entries, p).Keys == idx.Keys + ApsOf(entries)
    ensures forall ap :: ap in Noted(idx, entries, p) ==>
      Noted(idx, entries, p)[ap] == if ap in ApsOf(entries) then p else idx[ap]
  {
    if entries != [] {
      var front, last := entries[..|entries| - 1], entries[|entries| - 1];
      NotedIs(idx, front, p);
      assert ApsOf(entries) == ApsOf(front) + {last.ap};
    }
  }

  lemma NetworkAps(scan: Scan, ssid: Ssid)
    ensures ApsOf(EntriesOf(scan, scan.order, ssid)) == InRange(scan, ssid)
  {
    EntriesAre(scan, scan.order, ssid);
    forall ap | ap in InRange(scan, ssid)
      ensures ap in ApsOf(EntriesOf(scan, scan.order, ssid))
    {
      assert Entry(ap, scan.air[ap]) in EntriesOf(scan, scan.order, ssid);
    }
  }

  function HeardUnder(scan: Scan, done: set<Ssid>): set<Ap> {
    set ap | ap in HeardOf(scan) && scan.air[ap].ssid in done
  }

  lemma UnderOneMore(scan: Scan, done: set<Ssid>, ssid: Ssid)
    requires done <= Ssids(scan) && ssid in Ssids(scan)
    ensures HeardUnder(scan, done + {ssid}) == HeardUnder(scan, done) + InRange(scan, ssid)
    ensures SsidsOf(scan, HeardUnder(scan, done)) == done
  {
    forall s | s in done
      ensures s in SsidsOf(scan, HeardUnder(scan, done))
    {
      var ap :| ap in HeardOf(scan) && scan.air[ap].ssid == s;
    }
    forall ap | ap in InRange(scan, ssid)
      ensures ap in HeardUnder(scan, done + {ssid})
    {
      assert Heard(scan, ap) && ap in HeardOf(scan);
    }
  }

  lemma ServicesStep(net: Net, now: Net, dev: Device, scan: Scan, done: set<Ssid>, ssid: Ssid)
    requires ssid !in done && ServicesOffered(net, now.services, dev, scan, done)
    ensures ServicesOffered(net, now.services[Wifi(dev, ssid) := OfferedBy(now, dev, scan, ssid)],
      dev, scan, done + {ssid})
  {
    assert Wifi(dev, ssid) !in Places(dev, done);
    assert Places(dev, done + {ssid}) == Places(dev, done) + {Wifi(dev, ssid)};
    assert Before(now.services, Wifi(dev, ssid)) == Before(net.services, Wifi(dev, ssid));
  }

  lemma IndexStep(idx: map<Ap, Path>, now: map<Ap, Path>, dev: Device, scan: Scan, heard: set<Ap>, ssid: Ssid)
    requires IndexOffered(idx, now, dev, scan, heard)
    ensures IndexOffered(idx, Noted(now, EntriesOf(scan, scan.order, ssid), Wifi(dev, ssid)),
      dev, scan, heard + InRange(scan, ssid))
  {
    NotedIs(now, EntriesOf(scan, scan.order, ssid), Wifi(dev, ssid));
    NetworkAps(scan, ssid);
    assert forall ap :: ap in InRange(scan, ssid) ==> ap in scan.air && scan.air[ap].ssid == ssid;
  }

  lemma NoneIsOffered(net: Net, dev: Device, scan: Scan)
    ensures IsOffered(net, net, dev, scan, {})
  {
    assert SsidsOf(scan, {}) == {} && Places(dev, {}) == {};
  }

  lemma {:induction false} EachIsOffered(net: Net, dev: Device, scan: Scan, list: seq<Ssid>)
    requires forall i :: 0 <= i < |list| ==> list[i] in Ssids(scan)
    requires Distinct(list)
    ensures IsOffered(net, OfferEach(net, dev, scan, list), dev, scan, HeardUnder(scan, SetOf(list)))
  {
    if list == [] {
      assert HeardUnder(scan, SetOf(list)) == {};
      NoneIsOffered(net, dev, scan);
    } else {
      var front, ssid := list[..|list| - 1], list[|list| - 1];
      EachIsOffered(net, dev, scan, front);
      assert SetOf(list) == SetOf(front) + {ssid};
      OneMoreIsOffered(net, OfferEach(net, dev, scan, front), dev, scan, SetOf(front), ssid);
    }
  }

  lemma OneMoreIsOffered(net: Net, now: Net, dev: Device, scan: Scan, done: set<Ssid>, ssid: Ssid)
    requires done <= Ssids(scan) && ssid in Ssids(scan) && ssid !in done
    requires IsOffered(net, now, dev, scan, HeardUnder(scan, done))
    ensures IsOffered(net, OfferOne(now, dev, ssid, EntriesOf(scan, scan.order, ssid), SavedFor(scan, ssid)),
      dev, scan, HeardUnder(scan, done + {ssid}))
  {
    UnderOneMore(scan, done, ssid);
    UnderOneMore(scan, done + {ssid}, ssid);
    ServicesStep(net, now, dev, scan, done, ssid);
    IndexStep(net.apIndex, now.apIndex, dev, scan, HeardUnder(scan, done), ssid);
  }

  lemma WholeListIsOffered(net: Net, dev: Device, scan: Scan, list: seq<Ssid>)
    requires Distinct(list) && SetOf(list) == Ssids(scan)
    ensures IsOffered(net, OfferEach(net, dev, scan, list), dev, scan, HeardOf(scan))
  {
    assert forall i :: 0 <= i < |list| ==> list[i] in SetOf(list);
    EachIsOffered(net, dev, scan, list);
    assert HeardUnder(scan, Ssids(scan)) == HeardOf(scan);
  }

  /** Offering each network once, in whatever order, offers them all. */
  lemma OfferedIsAll(net: Net, dev: Device, scan: Scan, list: seq<Ssid>)
    requires Distinct(list) && SetOf(list) == Ssids(scan)
    ensures IsOffered(net, OfferAll(net, dev, scan), dev, scan, HeardOf(scan))
    ensures OfferEach(net, dev, scan, list) == OfferAll(net, dev, scan)
  {
    SsidListIs(scan, scan.order);
    WholeListIsOffered(net, dev, scan, list);
    WholeListIsOffered(net, dev, scan, SsidList(scan, scan.order));
    SameOffer(net, OfferEach(net, dev, scan, list), OfferAll(net, dev, scan), dev, scan, HeardOf(scan));
  }

  lemma AllIsOffered(net: Net, dev: Device, scan: Scan)
    ensures IsOffered(net, OfferAll(net, dev, scan), dev, scan, HeardOf(scan))
  {
    SsidListIs(scan, scan.order);
    OfferedIsAll(net, dev, scan, SsidList(scan, scan.order));
  }

  lemma SameOffer(net: Net, a: Net, b: Net, dev: Device, scan: Scan, heard: set<Ap>)
    requires IsOffered(net, a, dev, scan, heard) && IsOffered(net, b, dev, scan, heard)
    ensures a == b
  {
    SameServices(net, a, b, dev, scan, heard);
    SameIndex(net, a, b, dev, scan, heard);
  }

  lemma SameServices(net: Net, a: Net, b: Net, dev: Device, scan: Scan, heard: set<Ap>)
    requires IsOffered(net, a, dev, scan, heard) && IsOffered(net, b, dev, scan, heard)
    ensures a.services == b.services
  {
    forall p | p in a.services
      ensures a.services[p] == b.services[p]
    {
      if p in Places(dev, SsidsOf(scan, heard)) {
        assert p.ssid in SsidsOf(scan, heard);
      }
    }
  }

  lemma SameIndex(net: Net, a: Net, b: Net, dev: Device, scan: Scan, heard: set<Ap>)
    requires IsOffered(net, a, dev, scan, heard) && IsOffered(net, b, dev, scan, heard)
    ensures a.apIndex == b.apIndex
  {
    forall ap | ap in a.apIndex
      ensures a.apIndex[ap] == b.apIndex[ap]
    {
      assert ap in heard * scan.air.Keys || (ap in net.apIndex && ap !in heard * scan.air.Keys);
    }
  }

  /** What the tables hold just before the closing refresh. */
  function Settled(net: Net, dev: Device, scan: Scan): Net {
    var now := Current(dev, scan);
    DropAll(OfferAll(net, dev, scan), Listed(net, dev) - now).(listed := net.listed[dev := now])
  }

  function SyncAir(net: Net, dev: Device, scan: Scan, status: Option<Status>): Net {
    if dev !in net.devices then net else Refresh(Settled(net, dev, scan), dev, status)
  }

  function Cabled(net: Net, dev: Device, saved: string): Net {
    var p := Wired(dev);
    var s := Before(net.services, p).(device := dev, aps := {}, connection := saved, known := saved != "");
    net.(services := net.services[p := s], listed := net.listed[dev := {p}])
  }

  function SyncCable(net: Net, dev: Device, saved: string, status: Option<Status>): Net {
    if dev !in net.devices then net else Refresh(Cabled(net, dev, saved), dev, status)
  }

  // ---------------------------------------------------------------------
  // The events.

  datatype Event =
    | AddRadio(dev: Device, state: int, scan: Scan, status: Option<Status>)
    | AddCable(dev: Device, state: int, saved: string, status: Option<Status>)
    | RemoveDevice(dev: Device)
    | AirChanged(dev: Device, scan: Scan, status: Option<Status>)
    | StateChanged(dev: Device, told: Option<int>, status: Option<Status>)
    | Configure(guid: string, service: Service)
    | RemoveService(path: Path)

  /** A device is a radio or a cable for as long as it is there; services set up by
      hand have no access points. */
  predicate Enabled(net: Net, e: Event) {
    match e
    case AddRadio(dev, _, _, _) => dev in net.devices ==> net.devices[dev].kind.Radio?
    case AddCable(dev, _, _, _) => dev in net.devices ==> net.devices[dev].kind.Cable?
    case Configure(_, s) => s.aps == {}
    case AirChanged(dev, _, _) => dev in net.devices ==> net.devices[dev].kind.Radio?
    case _ => true
  }

  function RemoveOne(net: Net, p: Path): Net {
    if p !in net.services then net
    else if p.Wifi? && net.services[p].aps != {} then
      net.(services := net.services[p := net.services[p].(connection := "", error := "")])
    else Drop(net, p)
  }

  function Gone(net: Net, dev: Device): Net {
    DropAll(net, Listed(net, dev)).(listed := net.listed - {dev}, devices := net.devices - {dev})
  }

  function Next(net: Net, e: Event): Net {
    match e
    case AddRadio(dev, state, scan, status) =>
      SyncAir(net.(devices := net.devices[dev := Info(Radio, state)]), dev, scan, status)
    case AddCable(dev, state, saved, status) =>
      SyncCable(net.(devices := net.devices[dev := Info(Cable, state)]), dev, saved, status)
    case RemoveDevice(dev) =>
      Gone(net, dev)
    case AirChanged(dev, scan, status) => SyncAir(net, dev, scan, status)
    case StateChanged(dev, told, status) =>
      if dev in net.devices && told.Some? then
        Refresh(net.(devices := net.devices[dev := net.devices[dev].(state := told.value)]), dev, status)
      else Refresh(net, dev, status)
    case Configure(guid, s) => net.(services := net.services[Configured(guid) := s])
    case RemoveService(p) => RemoveOne(net, p)
  }
}

/** What holds after a sync, and in every state of every run. */
module NetworkRuns {
  import opened Wrappers
  import opened Networks

  predicate Belongs(p: Path, dev: Device) {
    !p.Configured? && p.device == dev
  }

  /** How a service stands with its place. */
  ghost predicate InPlace(net: Net, p: Path)
    requires p in net.services
  {
    var s := net.services[p];
    match p
    case Wifi(dev, ssid) =>
      && s.aps != {} && s.device == dev && s.ssid == ssid && ssid != ""
      && p in Listed(net, dev) && dev in net.devices && net.devices[dev].kind.Radio?
    case Wired(dev) =>
      && s.aps == {} && s.device == dev
      && p in Listed(net, dev) && dev in net.devices && net.devices[dev].kind.Cable?
    case Configured(_) => s.aps == {}
  }

  ghost predicate Inv(net: Net) {
    && (forall dev :: dev in net.listed ==> forall p :: p in net.listed[dev] ==> Belongs(p, dev))
    && (forall p :: p in net.services ==> InPlace(net, p))
  }

  // ---------------------------------------------------------------------
  // One sync.

  /** A service says of its network what the air says. */
  ghost predicate SaysTheAir(s: Service, dev: Device, scan: Scan, ssid: Ssid) {
    && s.device == dev && s.ssid == ssid && s.aps == InRange(scan, ssid)
    && (forall ap :: ap in s.aps ==> scan.air[ap].strength <= s.strength)
    && (exists ap :: ap in s.aps && scan.air[ap].strength == s.strength && scan.air[ap].lock == s.lock)
    && s.connection == SavedFor(scan, ssid) && (s.known <==> s.connection != "")
  }

  /** A passphrase is asked for exactly when the network wants one and none is saved, or
      the one there was has just proved wrong. */
  ghost predicate AsksRightly(s: Service) {
    && (s.lock.required && s.connection == "" ==> s.needsPassphrase)
    && (s.needsPassphrase ==>
         (s.lock.required && s.connection == "") || (s.state == Failure && s.error == BAD_PASSPHRASE))
  }

  lemma OfferSaysTheAir(net: Net, dev: Device, scan: Scan, ssid: Ssid)
    requires ssid in Ssids(scan)
    ensures SaysTheAir(OfferedBy(net, dev, scan, ssid), dev, scan, ssid)
    ensures OfferedBy(net, dev, scan, ssid).aps != {} && ssid != ""
  {
    var entries := EntriesOf(scan, scan.order, ssid);
    EntriesAre(scan, scan.order, ssid);
    HeardNetworkHasEntries(scan, ssid);
    StrongestIsFirst(entries);
    var s, best := OfferedBy(net, dev, scan, ssid), StrongestFirst(entries)[0];
    forall ap
      ensures ap in s.aps <==> ap in InRange(scan, ssid)
    {
      if ap in InRange(scan, ssid) {
        assert Entry(ap, scan.air[ap]) in entries;
      }
    }
    assert best.ap in s.aps;
    forall ap | ap in s.aps
      ensures scan.air[ap].strength <= s.strength
    {
      assert Entry(ap, scan.air[ap]) in entries;
    }
  }

  lemma SettledServices(net: Net, dev: Device, scan: Scan)
    requires Inv(net) && dev in net.devices && net.devices[dev].kind.Radio?
    ensures forall ssid :: Wifi(dev, ssid) in Settled(net, dev, scan).services <==> ssid in Ssids(scan)
    ensures forall ssid :: ssid in Ssids(scan) ==>
      Settled(net, dev, scan).services[Wifi(dev, ssid)] == OfferedBy(net, dev, scan, ssid)
    ensures forall p :: !Belongs(p, dev) ==> (p in Settled(net, dev, scan).services <==> p in net.services)
    ensures forall p :: !Belongs(p, dev) && p in net.services ==> Settled(net, dev, scan).services[p] == net.services[p]
    ensures Wired(dev) !in Settled(net, dev, scan).services
    ensures Settled(net, dev, scan).devices == net.devices
    ensures Settled(net, dev, scan).listed == net.listed[dev := Current(dev, scan)]
  {
    var now := Current(dev, scan);
    AllIsOffered(net, dev, scan);
    forall ssid
      ensures Wifi(dev, ssid) in now <==> ssid in Ssids(scan)
    {
    }
    forall p | p in Listed(net, dev)
      ensures Belongs(p, dev)
    {
    }
    forall p | p in net.services && Belongs(p, dev)
      ensures p in Listed(net, dev)
    {
      assert InPlace(net, p);
    }
    assert Wired(dev) in net.services ==> InPlace(net, Wired(dev));
  }

  /** After a sync the radio's services are exactly one for each network heard, each
      with exactly that network's access points and the strongest of them; everything
      else is left alone. */
  lemma SyncIsGrouping(net: Net, dev: Device, scan: Scan, status: Option<Status>)
    requires Inv(net) && dev in net.devices && net.devices[dev].kind.Radio?
    ensures var after := SyncAir(net, dev, scan, status);
      && (forall ssid :: Wifi(dev, ssid) in after.services <==> ssid in Ssids(scan))
      && (forall ssid :: ssid in Ssids(scan) ==> SaysTheAir(after.services[Wifi(dev, ssid)], dev, scan, ssid))
      && (forall ssid :: ssid in Ssids(scan) ==> AsksRightly(after.services[Wifi(dev, ssid)]))
      && after.listed == net.listed[dev := Places(dev, Ssids(scan))]
      && (forall p :: !Belongs(p, dev) ==> (p in after.services <==> p in net.services))
      && (forall p :: !Belongs(p, dev) && p in net.services ==> after.services[p] == net.services[p])
  {
    SettledServices(net, dev, scan);
    var before := Settled(net, dev, scan);
    forall p | p in before.services
      ensures SameNetwork(SyncAir(net, dev, scan, status).services[p], before.services[p])
    {
      RefreshKeepsNetwork(before, dev, status, p);
    }
    forall ssid | ssid in Ssids(scan)
      ensures SaysTheAir(SyncAir(net, dev, scan, status).services[Wifi(dev, ssid)], dev, scan, ssid)
    {
      OfferSaysTheAir(net, dev, scan, ssid);
      SaysTheSame(before.services[Wifi(dev, ssid)], SyncAir(net, dev, scan, status).services[Wifi(dev, ssid)],
        dev, scan, ssid);
    }
    forall ssid | ssid in Ssids(scan)
      ensures AsksRightly(SyncAir(net, dev, scan, status).services[Wifi(dev, ssid)])
    {
      RefreshKeepsNetwork(before, dev, status, Wifi(dev, ssid));
    }
  }

  ghost predicate SameNetwork(s: Service, t: Service) {
    && s.device == t.device && s.aps == t.aps && s.connection == t.connection && s.ssid == t.ssid
    && s.strength == t.strength && s.lock == t.lock && s.known == t.known
  }

  lemma RefreshKeepsNetwork(net: Net, dev: Device, status: Option<Status>, p: Path)
    requires p in net.services
    ensures p in Refresh(net, dev, status).services &&
      SameNetwork(Refresh(net, dev, status).services[p], net.services[p])
    ensures p !in Listed(net, dev) ==> Refresh(net, dev, status).services[p] == net.services[p]
    ensures net.services[p].needsPassphrase ==> Refresh(net, dev, status).services[p].needsPassphrase
    ensures Refresh(net, dev, status).services[p].needsPassphrase && !net.services[p].needsPassphrase ==>
      Refresh(net, dev, status).services[p].state == Failure &&
        Refresh(net, dev, status).services[p].error == BAD_PASSPHRASE
  {
  }

  lemma SaysTheSame(s: Service, t: Service, dev: Device, scan: Scan, ssid: Ssid)
    requires SaysTheAir(s, dev, scan, ssid) && SameNetwork(t, s)
    ensures SaysTheAir(t, dev, scan, ssid)
  {
  }

  /** After a refresh a service of the device is idle unless the device is on its
      network, online exactly when the device is also activated, and failed exactly
      when it failed there. */
  lemma RefreshJudges(net: Net, dev: Device, status: Option<Status>, p: Path)
    requires dev in net.devices && p in Listed(net, dev) && p in net.services
    ensures var st := Reading(net.devices[dev], status);
      var s := Refresh(net, dev, status).services[p];
      var active := Active(s, net.devices[dev].kind, st);
      && (active <==> Active(net.services[p], net.devices[dev].kind, st))
      && (!active ==> s.state == Idle)
      && (s.state == Online <==> active && st.state == ACTIVATED)
      && (s.state == Failure <==> active && st.state == FAILED)
      && (s.state == Ready ==> active && DISCONNECTED <= st.state < DEACTIVATING)
      && (active && st.state != FAILED ==> s.error == "")
      && (s.state == Failure ==> s.error == FailureFor(st.reason))
  {
    assert p in net.listed[dev];
  }

  /** What a sync shows of one network, read from the scan: there is a service exactly if the
      network has a name and some access point listed is heard with it. It has exactly these
      access points and speaks for a strongest of them, and for what was saved. */
  lemma SyncShowsTheAir(net: Net, dev: Device, scan: Scan, status: Option<Status>, ssid: Ssid)
    requires Inv(net) && dev in net.devices && net.devices[dev].kind.Radio?
    ensures var after, p := SyncAir(net, dev, scan, status), Wifi(dev, ssid);
      && (p in after.services <==>
           ssid != "" && exists ap :: ap in scan.order && ap in scan.air && scan.air[ap].ssid == ssid)
      && (p in after.services ==>
           var s := after.services[p];
           && s.aps == (set ap | ap in scan.order && ap in scan.air && scan.air[ap].ssid == ssid)
           && (exists best :: best in s.aps && s.strength == scan.air[best].strength && s.lock == scan.air[best].lock
                && forall ap :: ap in s.aps ==> scan.air[ap].strength <= scan.air[best].strength)
           && s.connection == (if ssid in scan.saved then scan.saved[ssid] else "")
           && (s.known <==> s.connection != "") && s.device == dev && s.ssid == ssid)
  {
    SyncIsGrouping(net, dev, scan, status);
    if exists ap :: ap in scan.order && ap in scan.air && scan.air[ap].ssid == ssid && ssid != "" {
      var ap :| ap in scan.order && ap in scan.air && scan.air[ap].ssid == ssid && ssid != "";
      assert ap in HeardOf(scan);
    }
    if ssid in Ssids(scan) {
      assert SaysTheAir(SyncAir(net, dev, scan, status).services[Wifi(dev, ssid)], dev, scan, ssid);
    }
  }

  /** What puts a device on a service's network: for a cable, to be connected at all; for a
      radio, to be connected by the profile saved for it, or to one of its access points. */
  ghost predicate IsOn(s: Service, kind: Kind, st: Status) {
    var connected := st.connection != "" && st.connection != "/";
    || (kind.Cable? && connected)
    || (s.connection != "" && (s.connection == st.connection || (connected && s.connection == st.settings)))
    || (kind.Radio? && st.ap in s.aps)
  }

  /** A refresh, by NetworkManager's numbers for a device's state: a service the device is on
      says how far it is, or how it failed; any other is idle. All else is as it was. */
  lemma RefreshTells(net: Net, dev: Device, st: Status, p: Path)
    requires Inv(net) && dev in net.devices && p in Listed(net, dev) && p in net.services
    ensures var before, s := net.services[p], Refresh(net, dev, Some(st)).services[p];
      && SameNetwork(s, before)
      && (if !IsOn(before, net.devices[dev].kind, st) then s == before.(state := Idle)
          else if st.state == 120 then s.state == Failure && s.error == FailureFor(st.reason)
          else
            && s.error == "" && s.needsPassphrase == before.needsPassphrase
            && s.state == if st.state in {40, 50, 60} then Association
                          else if st.state in {70, 80, 90} then Configuration
                          else if st.state == 100 then Online
                          else if 30 <= st.state < 110 then Ready else Idle)
    ensures var after := Refresh(net, dev, Some(st));
      && after.services.Keys == net.services.Keys && after.listed == net.listed && after.apIndex == net.apIndex
      && after.devices == net.devices[dev := Info(net.devices[dev].kind, st.state)]
      && forall q :: q in net.services && q !in Listed(net, dev) ==> after.services[q] == net.services[q]
  {
    assert InPlace(net, p) && Belongs(p, dev);
    assert Active(net.services[p], net.devices[dev].kind, Reading(net.devices[dev], Some(st))) <==>
      IsOn(net.services[p], net.devices[dev].kind, st);
  }

  /** A failure says why, by NetworkManager's numbers, and asks for the passphrase again
      exactly when that was what was wrong. */
  lemma FailureSaysWhy(net: Net, dev: Device, st: Status, p: Path)
    requires Inv(net) && dev in net.devices && p in Listed(net, dev) && p in net.services
    requires st.state == 120 && IsOn(net.services[p], net.devices[dev].kind, st)
    ensures var before, s := net.services[p], Refresh(net, dev, Some(st)).services[p];
      && (s.error == "bad-passphrase" <==> st.reason in {7, 9, 10})
      && (s.error == "not-associated" <==> st.reason in {8, 11})
      && (s.error == "out-of-range" <==> st.reason == 53)
      && (s.needsPassphrase <==> before.needsPassphrase || st.reason in {7, 9, 10})
  {
    RefreshTells(net, dev, st, p);
  }

  /** Removing a service: one with access points in range stays and is forgotten, any other is
      gone. All others are as they were. */
  lemma RemovedOrForgotten(net: Net, p: Path)
    requires Inv(net) && p in net.services
    ensures var after := Next(net, RemoveService(p));
      && (p.Wifi? ==> p in after.services && after.services[p] == net.services[p].(connection := "", error := ""))
      && (p.Wifi? ==> after.apIndex == net.apIndex)
      && (!p.Wifi? ==> p !in after.services)
      && (forall q :: q != p ==> (q in after.services <==> q in net.services))
      && (forall q :: q != p && q in net.services ==> after.services[q] == net.services[q])
  {
    assert InPlace(net, p);
  }

  /** A cable has one service, connected by its saved profile; everything else is left
      alone. */
  lemma SyncCableIsOne(net: Net, dev: Device, saved: string, status: Option<Status>)
    requires Inv(net) && dev in net.devices && net.devices[dev].kind.Cable?
    ensures var after := SyncCable(net, dev, saved, status);
      && (forall p :: p in after.services && Belongs(p, dev) ==> p == Wired(dev)) && Wired(dev) in after.services
      && after.services[Wired(dev)].connection == saved && after.services[Wired(dev)].aps == {}
      && after.services[Wired(dev)].device == dev && (after.services[Wired(dev)].known <==> saved != "")
      && after.listed == net.listed[dev := {Wired(dev)}]
      && (forall p :: p != Wired(dev) ==> (p in after.services <==> p in net.services))
      && (forall p :: p != Wired(dev) && p in net.services ==> after.services[p] == net.services[p])
  {
    var before := Cabled(net, dev, saved);
    forall p | p in before.services
      ensures p != Wired(dev) ==> !Belongs(p, dev)
    {
      if p != Wired(dev) {
        assert InPlace(net, p);
      }
    }
    forall p | p in before.services
      ensures SameNetwork(SyncCable(net, dev, saved, status).services[p], before.services[p])
      ensures p != Wired(dev) ==> SyncCable(net, dev, saved, status).services[p] == net.services[p]
    {
      RefreshKeepsNetwork(before, dev, status, p);
    }
  }

  /** A device that goes takes exactly its own services with it. */
  lemma RemovedTakesItsOwn(net: Net, dev: Device)
    requires Inv(net)
    ensures var after := Next(net, RemoveDevice(dev));
      && dev !in after.devices && dev !in after.listed
      && (forall p :: p in after.services <==> p in net.services && !Belongs(p, dev))
      && (forall p :: p in after.services ==> after.services[p] == net.services[p])
  {
    forall p | p in net.services
      ensures Belongs(p, dev) <==> p in Listed(net, dev)
    {
      assert InPlace(net, p);
    }
  }

  // ---------------------------------------------------------------------
  // Runs.

  lemma RefreshKeeps(net: Net, dev: Device, status: Option<Status>)
    requires Inv(net)
    ensures Inv(Refresh(net, dev, status))
  {
    var after := Refresh(net, dev, status);
    forall p | p in after.services
      ensures InPlace(after, p)
    {
      assert InPlace(net, p);
    }
  }

  lemma SettledKeeps(net: Net, dev: Device, scan: Scan)
    requires Inv(net) && dev in net.devices && net.devices[dev].kind.Radio?
    ensures Inv(Settled(net, dev, scan))
  {
    SettledServices(net, dev, scan);
    var after := Settled(net, dev, scan);
    forall p | p in after.services
      ensures InPlace(after, p)
    {
      if Belongs(p, dev) {
        assert p == Wifi(dev, p.ssid) && p in Current(dev, scan);
        OfferSaysTheAir(net, dev, scan, p.ssid);
      } else {
        assert InPlace(net, p);
      }
    }
  }

  lemma SyncAirKeeps(net: Net, dev: Device, scan: Scan, status: Option<Status>)
    requires Inv(net) && (dev in net.devices ==> net.devices[dev].kind.Radio?)
    ensures Inv(SyncAir(net, dev, scan, status))
  {
    if dev in net.devices {
      SettledKeeps(net, dev, scan);
      RefreshKeeps(Settled(net, dev, scan), dev, status);
    }
  }

  lemma SyncCableKeeps(net: Net, dev: Device, saved: string, status: Option<Status>)
    requires Inv(net) && dev in net.devices && net.devices[dev].kind.Cable?
    ensures Inv(SyncCable(net, dev, saved, status))
  {
    var p, mid := Wired(dev), Cabled(net, dev, saved);
    forall q | q in mid.services
      ensures InPlace(mid, q)
    {
      assert q != p ==> InPlace(net, q);
    }
    RefreshKeeps(mid, dev, status);
  }

  lemma RemoveDeviceKeeps(net: Net, dev: Device)
    requires Inv(net)
    ensures Inv(Next(net, RemoveDevice(dev)))
  {
    var after := Next(net, RemoveDevice(dev));
    forall p | p in after.services
      ensures InPlace(after, p)
    {
      assert InPlace(net, p);
    }
  }

  lemma DeviceStateKeeps(net: Net, dev: Device, info: Info)
    requires Inv(net) && (dev in net.devices ==> net.devices[dev].kind == info.kind)
    ensures Inv(net.(devices := net.devices[dev := info]))
  {
    var after := net.(devices := net.devices[dev := info]);
    forall p | p in after.services
      ensures InPlace(after, p)
    {
      assert InPlace(net, p);
    }
  }

  lemma OneServiceKeeps(net: Net, e: Event)
    requires Inv(net) && Enabled(net, e) && (e.Configure? || e.RemoveService?)
    ensures Inv(Next(net, e))
  {
    match e {
      case Configure(guid, s) => ConfigureKeeps(net, guid, s);
      case RemoveService(p) => RemoveOneKeeps(net, p);
    }
  }

  lemma ConfigureKeeps(net: Net, guid: string, s: Service)
    requires Inv(net) && Enabled(net, Configure(guid, s))
    ensures Inv(Next(net, Configure(guid, s)))
  {
    var after := Next(net, Configure(guid, s));
    forall p | p in after.services
      ensures InPlace(after, p)
    {
      assert p in net.services ==> InPlace(net, p);
    }
  }

  lemma RemoveOneKeeps(net: Net, gone: Path)
    requires Inv(net)
    ensures Inv(RemoveOne(net, gone))
  {
    var after := RemoveOne(net, gone);
    forall p | p in after.services
      ensures InPlace(after, p)
    {
      assert p in net.services && InPlace(net, p);
    }
  }

  lemma NextKeeps(net: Net, e: Event)
    requires Inv(net) && Enabled(net, e)
    ensures Inv(Next(net, e))
  {
    match e {
      case AddRadio(dev, state, scan, status) =>
        DeviceStateKeeps(net, dev, Info(Radio, state));
        SyncAirKeeps(net.(devices := net.devices[dev := Info(Radio, state)]), dev, scan, status);
      case AddCable(dev, state, saved, status) =>
        DeviceStateKeeps(net, dev, Info(Cable, state));
        SyncCableKeeps(net.(devices := net.devices[dev := Info(Cable, state)]), dev, saved, status);
      case RemoveDevice(dev) => RemoveDeviceKeeps(net, dev);
      case AirChanged(dev, scan, status) => SyncAirKeeps(net, dev, scan, status);
      case StateChanged(dev, told, status) =>
        if dev in net.devices && told.Some? {
          DeviceStateKeeps(net, dev, net.devices[dev].(state := told.value));
          RefreshKeeps(net.(devices := net.devices[dev := net.devices[dev].(state := told.value)]), dev, status);
        } else {
          RefreshKeeps(net, dev, status);
        }
      case Configure(_, _) => OneServiceKeeps(net, e);
      case RemoveService(_) => OneServiceKeeps(net, e);
    }
  }

  const EMPTY := Net(map[], map[], map[], map[])

  ghost predicate Runs(net: Net, events: seq<Event>)
    decreases |events|
  {
    events == [] || (Enabled(net, events[0]) && Runs(Next(net, events[0]), events[1..]))
  }

  ghost function Run(net: Net, events: seq<Event>): Net
    requires Runs(net, events)
    decreases |events|
  {
    if events == [] then net else Run(Next(net, events[0]), events[1..])
  }

  lemma {:induction false} RunKeeps(net: Net, events: seq<Event>)
    requires Inv(net) && Runs(net, events)
    ensures Inv(Run(net, events))
    decreases |events|
  {
    if events != [] {
      NextKeeps(net, events[0]);
      RunKeeps(Next(net, events[0]), events[1..]);
    }
  }

  // ---------------------------------------------------------------------
  // The reverse index.

  /** Every access point of every service finds its service. */
  ghost predicate Indexed(net: Net) {
    forall p, ap :: p in net.services && ap in net.services[p].aps ==> ap in net.apIndex && net.apIndex[ap] == p
  }

  /** The index finds the service of every access point heard exactly when none of them
      was with a network that went away: dropping that network takes the entry just
      written. */
  lemma IndexIsRightWhen(net: Net, dev: Device, scan: Scan, status: Option<Status>)
    requires Inv(net) && dev in net.devices && net.devices[dev].kind.Radio?
    ensures (forall ap :: ap in HeardOf(scan) ==>
              ap in SyncAir(net, dev, scan, status).apIndex &&
                SyncAir(net, dev, scan, status).apIndex[ap] == Wifi(dev, scan.air[ap].ssid))
       <==> HeardOf(scan) !! LostAps(net, Listed(net, dev) - Current(dev, scan))
  {
    var gone := Listed(net, dev) - Current(dev, scan);
    SameLost(net, dev, scan);
    AllIsOffered(net, dev, scan);
    assert SyncAir(net, dev, scan, status).apIndex == OfferAll(net, dev, scan).apIndex - LostAps(net, gone);
  }

  lemma SameLost(net: Net, dev: Device, scan: Scan)
    ensures var gone := Listed(net, dev) - Current(dev, scan);
      LostAps(OfferAll(net, dev, scan), gone) == LostAps(net, gone)
  {
    var gone := Listed(net, dev) - Current(dev, scan);
    var offered := OfferAll(net, dev, scan);
    AllIsOffered(net, dev, scan);
    assert forall p :: p in gone ==> (p in offered.services <==> p in net.services);
    assert forall p :: p in gone && p in net.services ==> offered.services[p] == net.services[p];
  }

  /** A renamed access point, when nothing else is heard of its old network: its new
      service is there and has it, and the index has lost it. */
  lemma RenamingLosesTheEntry(net: Net, dev: Device, scan: Scan, status: Option<Status>, ap: Ap, was: Ssid)
    requires Inv(net) && dev in net.devices && net.devices[dev].kind.Radio?
    requires Wifi(dev, was) in net.services && ap in net.services[Wifi(dev, was)].aps
    requires ap in HeardOf(scan) && was !in Ssids(scan)
    ensures var after, p := SyncAir(net, dev, scan, status), Wifi(dev, scan.air[ap].ssid);
      p in after.services && ap in after.services[p].aps && ap !in after.apIndex
  {
    var p := Wifi(dev, was);
    assert InPlace(net, p);
    assert p in Listed(net, dev) - Current(dev, scan);
    assert scan.air[ap].ssid in Ssids(scan);
    SyncIsGrouping(net, dev, scan, status);
    LostIsGone(net, dev, scan, status, ap);
  }

  lemma LostIsGone(net: Net, dev: Device, scan: Scan, status: Option<Status>, ap: Ap)
    requires dev in net.devices && ap in LostAps(net, Listed(net, dev) - Current(dev, scan))
    ensures ap !in SyncAir(net, dev, scan, status).apIndex
  {
    var gone := Listed(net, dev) - Current(dev, scan);
    var p :| p in gone && p in net.services && ap in net.services[p].aps;
    AllIsOffered(net, dev, scan);
    assert p in OfferAll(net, dev, scan).services && OfferAll(net, dev, scan).services[p] == net.services[p];
  }

  predicate LivesAt(home: map<Ap, Path>, ap: Ap, p: Path) {
    ap in home && home[ap] == p
  }

  /** Every access point of every service is at home there. */
  ghost predicate AtHome(net: Net, home: map<Ap, Path>) {
    forall p, ap :: p in net.services && ap in net.services[p].aps ==> LivesAt(home, ap, p)
  }

  /** A scan hears each access point under the name it has at home. */
  ghost predicate HearsHome(dev: Device, scan: Scan, home: map<Ap, Path>) {
    forall ap :: ap in HeardOf(scan) ==> ap in home && home[ap] == Wifi(dev, scan.air[ap].ssid)
  }

  ghost predicate KeepsNames(e: Event, home: map<Ap, Path>) {
    match e
    case AddRadio(dev, _, scan, _) => HearsHome(dev, scan, home)
    case AirChanged(dev, scan, _) => HearsHome(dev, scan, home)
    case _ => true
  }

  lemma LostAreAtHome(net: Net, gone: set<Path>, home: map<Ap, Path>)
    requires forall p, ap :: p in gone && p in net.services && ap in net.services[p].aps ==> LivesAt(home, ap, p)
    ensures forall ap :: ap in LostAps(net, gone) ==> ap in home && home[ap] in gone
  {
  }

  /** Dropping services leaves the entries of all others. */
  lemma DropKeepsIndex(net: Net, gone: set<Path>, home: map<Ap, Path>)
    requires Indexed(net) && AtHome(net, home)
    ensures Indexed(DropAll(net, gone)) && AtHome(DropAll(net, gone), home)
  {
    LostAreAtHome(net, gone, home);
  }

  lemma HeardAreCurrent(dev: Device, scan: Scan)
    ensures forall ap :: ap in HeardOf(scan) ==> Wifi(dev, scan.air[ap].ssid) in Current(dev, scan)
  {
    assert forall ap :: ap in HeardOf(scan) ==> scan.air[ap].ssid in Ssids(scan);
  }

  lemma OfferedIsIndexed(net: Net, dev: Device, scan: Scan, home: map<Ap, Path>, p: Path, ap: Ap)
    requires Indexed(net) && AtHome(net, home) && HearsHome(dev, scan, home)
    requires p in OfferAll(net, dev, scan).services && ap in OfferAll(net, dev, scan).services[p].aps
    ensures ap in home && home[ap] == p
    ensures ap in OfferAll(net, dev, scan).apIndex && OfferAll(net, dev, scan).apIndex[ap] == p
  {
    AllIsOffered(net, dev, scan);
    if p in Current(dev, scan) {
      OfferSaysTheAir(net, dev, scan, p.ssid);
      assert OfferAll(net, dev, scan).services[p] == OfferedBy(net, dev, scan, p.ssid);
      assert ap in HeardOf(scan);
    } else {
      assert OfferAll(net, dev, scan).services[p] == net.services[p];
      assert home[ap] !in Current(dev, scan);
      HeardAreCurrent(dev, scan);
    }
  }

  lemma OfferIsIndexed(net: Net, dev: Device, scan: Scan, home: map<Ap, Path>)
    requires Indexed(net) && AtHome(net, home) && HearsHome(dev, scan, home)
    ensures Indexed(OfferAll(net, dev, scan))
  {
    var after := OfferAll(net, dev, scan);
    forall p, ap | p in after.services && ap in after.services[p].aps
      ensures ap in after.apIndex && after.apIndex[ap] == p
    {
      OfferedIsIndexed(net, dev, scan, home, p, ap);
    }
  }

  lemma OfferIsAtHome(net: Net, dev: Device, scan: Scan, home: map<Ap, Path>)
    requires Indexed(net) && AtHome(net, home) && HearsHome(dev, scan, home)
    ensures AtHome(OfferAll(net, dev, scan), home)
  {
    var after := OfferAll(net, dev, scan);
    forall p, ap | p in after.services && ap in after.services[p].aps
      ensures LivesAt(home, ap, p)
    {
      OfferedIsIndexed(net, dev, scan, home, p, ap);
    }
  }

  lemma RefreshKeepsIndex(net: Net, dev: Device, status: Option<Status>, home: map<Ap, Path>)
    requires Indexed(net) && AtHome(net, home)
    ensures Indexed(Refresh(net, dev, status)) && AtHome(Refresh(net, dev, status), home)
  {
    var after := Refresh(net, dev, status);
    forall p | p in after.services
      ensures p in net.services && after.services[p].aps == net.services[p].aps
    {
      RefreshKeepsNetwork(net, dev, status, p);
    }
    assert after.apIndex == net.apIndex;
  }

  lemma SyncKeepsIndex(net: Net, dev: Device, scan: Scan, status: Option<Status>, home: map<Ap, Path>)
    requires Indexed(net) && AtHome(net, home) && HearsHome(dev, scan, home)
    ensures Indexed(SyncAir(net, dev, scan, status)) && AtHome(SyncAir(net, dev, scan, status), home)
  {
    if dev in net.devices {
      var offered, gone := OfferAll(net, dev, scan), Listed(net, dev) - Current(dev, scan);
      OfferIsIndexed(net, dev, scan, home);
      OfferIsAtHome(net, dev, scan, home);
      DropKeepsIndex(offered, gone, home);
      SameIndex(DropAll(offered, gone), Settled(net, dev, scan), home);
      RefreshKeepsIndex(Settled(net, dev, scan), dev, status, home);
    }
  }

  lemma SameIndex(net: Net, after: Net, home: map<Ap, Path>)
    requires Indexed(net) && AtHome(net, home)
    requires after.services == net.services && after.apIndex == net.apIndex
    ensures Indexed(after) && AtHome(after, home)
  {
  }

  /** As long as access points keep their names, the index is right in every state of
      every run. */
  lemma {:induction false} IndexStaysRight(net: Net, events: seq<Event>, home: map<Ap, Path>)
    requires Inv(net) && Indexed(net) && AtHome(net, home) && Runs(net, events)
    requires forall i :: 0 <= i < |events| ==> KeepsNames(events[i], home)
    ensures Indexed(Run(net, events))
    decreases |events|
  {
    if events != [] {
      assert KeepsNames(events[0], home);
      NextKeepsIndex(net, events[0], home);
      NextKeeps(net, events[0]);
      IndexStaysRight(Next(net, events[0]), events[1..], home);
    }
  }

  lemma NextKeepsIndex(net: Net, e: Event, home: map<Ap, Path>)
    requires Inv(net) && Indexed(net) && AtHome(net, home) && Enabled(net, e) && KeepsNames(e, home)
    ensures Indexed(Next(net, e)) && AtHome(Next(net, e), home)
  {
    match e {
      case AddRadio(dev, state, scan, status) =>
        var known := net.(devices := net.devices[dev := Info(Radio, state)]);
        SameIndex(net, known, home);
        SyncKeepsIndex(known, dev, scan, status, home);
      case AddCable(dev, state, saved, status) =>
        CableKeepsIndex(net, dev, state, saved, status, home);
      case AirChanged(dev, scan, status) => SyncKeepsIndex(net, dev, scan, status, home);
      case RemoveDevice(dev) =>
        DropKeepsIndex(net, Listed(net, dev), home);
        SameIndex(DropAll(net, Listed(net, dev)), Next(net, e), home);
      case StateChanged(dev, told, status) =>
        RefreshKeepsIndex(net, dev, status, home);
        if dev in net.devices && told.Some? {
          var known := net.(devices := net.devices[dev := net.devices[dev].(state := told.value)]);
          SameIndex(net, known, home);
          RefreshKeepsIndex(known, dev, status, home);
        }
      case Configure(_, _) =>
      case RemoveService(p) =>
        DropOneKeepsIndex(net, p, home);
    }
  }

  lemma CableKeepsIndex(net: Net, dev: Device, state: int, saved: string, status: Option<Status>, home: map<Ap, Path>)
    requires Indexed(net) && AtHome(net, home)
    ensures Indexed(Next(net, AddCable(dev, state, saved, status))) &&
      AtHome(Next(net, AddCable(dev, state, saved, status)), home)
  {
    var mid := Cabled(net.(devices := net.devices[dev := Info(Cable, state)]), dev, saved);
    assert Indexed(mid) && AtHome(mid, home);
    RefreshKeepsIndex(mid, dev, status, home);
  }

  lemma DropOneKeepsIndex(net: Net, p: Path, home: map<Ap, Path>)
    requires Indexed(net) && AtHome(net, home)
    ensures Indexed(RemoveOne(net, p)) && AtHome(RemoveOne(net, p), home)
  {
  }
}
