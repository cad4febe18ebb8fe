/**
 The service registry: services that hold a reservation publish themselves, renew their lease and
 mark themselves unhealthy, each under the registry's lock; readers decide whom to trust.
 Times and durations are in microseconds since the start of year 1.
 */
module Registry {
  import opened Prelude

  const Second: int := 1_000_000
  const YearTwo: int := 365 * 24 * 60 * 60 * Second

  datatype ServiceState = Starting | Ready | Unhealthy | Other(name: string)

  datatype Record = Record(
    id: string, tokenHash: string, state: ServiceState, created: int, startupDeadline: int,
    lease: int, absolute: Option<int>, heartbeat: Option<int>,
    endpoint: string, bearer: string, job: string, healthError: string, failure: string)

  datatype Publisher = Publisher(id: string, tokenHash: string, leaseDuration: Option<int>)

  /** An absent bound and the zero time of year 1 both mean no bound. */
  predicate Bounded(r: Record) {
    r.absolute.Some? && r.absolute.value >= YearTwo
  }

  function BoundedExpiry(r: Record, candidate: int): (expiry: int)
    ensures r.absolute.None? || r.absolute.value < 31_536_000_000_000 ==> expiry == candidate
    ensures r.absolute.Some? && r.absolute.value >= 31_536_000_000_000 ==>
              expiry <= candidate && expiry <= r.absolute.value && expiry in {candidate, r.absolute.value}
  {
    if !Bounded(r) then candidate else if candidate < r.absolute.value then candidate else r.absolute.value
  }

  function Find(records: seq<Record>, id: string): (at: Option<nat>)
    ensures at.Some? ==> at.value < |records| && records[at.value].id == id
    ensures at.Some? ==> forall i :: 0 <= i < at.value ==> records[i].id != id
    ensures at.None? ==> forall i :: 0 <= i < |records| ==> records[i].id != id
  {
    if records == [] then None
    else if records[0].id == id then Some(0)
    else
      var rest := Find(records[1..], id);
      assert forall i :: 1 <= i < |records| ==> records[i] == records[1..][i - 1];
      if rest.Some? then Some(rest.value + 1) else None
  }

  function DurationOf(r: Record): int {
    if r.lease - r.created < Second then Second else r.lease - r.created
  }

  /** A publisher finds its own reservation, if the token fits, and learns its lease duration the first time. */
  function Access(records: seq<Record>, p: Publisher): (Publisher, Option<nat>) {
    var at := Find(records, p.id);
    if at.None? || records[at.value].tokenHash != p.tokenHash then (p, None)
    else if p.leaseDuration.None? then (p.(leaseDuration := Some(DurationOf(records[at.value]))), at)
    else (p, at)
  }

  datatype Action =
    | Publish(endpoint: string, bearer: string, job: string)
    | Renew
    | MarkUnhealthy(reason: string)

  /** The new record, or None where the action raises. */
  function Acted(r: Record, duration: int, action: Action, now: int): Option<Record> {
    match action
    case Publish(endpoint, bearer, job) =>
      if r.state != Starting || r.startupDeadline <= now then None
      else Some(r.(state := Ready, endpoint := endpoint, bearer := bearer, job := if job != "" then job else r.job,
                   heartbeat := Some(now), lease := BoundedExpiry(r, now + duration), healthError := "", failure := ""))
    case Renew =>
      if r.state != Ready then None
      else Some(r.(heartbeat := Some(now), lease := BoundedExpiry(r, now + duration)))
    case MarkUnhealthy(reason) =>
      Some(r.(state := Unhealthy, healthError := if |reason| <= 1000 then reason else reason[..1000],
              failure := "service_failure", lease := now))
  }

  /** One locked section: a step that raises leaves the registry as it was. */
  function Step(records: seq<Record>, p: Publisher, action: Action, now: int): (seq<Record>, Publisher, bool) {
    var (p', at) := Access(records, p);
    if at.None? then (records, p', false)
    else
      var r := Acted(records[at.value], p'.leaseDuration.value, action, now);
      if r.None? then (records, p', false) else (records[at.value := r.value], p', true)
  }

  // ----- the classes -----

  class RegistryFile {
    var records: seq<Record>
    var updatedAt: int

    constructor (records: seq<Record>)
      ensures this.records == records
    {
      this.records, updatedAt := records, 0;
    }
  }

  class RegistryPublisher {
    const file: RegistryFile
    const serviceId: string
    const tokenHash: string
    var leaseDuration: Option<int>

    function State(): Publisher
      reads this
    {
      Publisher(serviceId, tokenHash, leaseDuration)
    }

    constructor (file: RegistryFile, serviceId: string, tokenHash: string)
      ensures this.file == file && State() == Publisher(serviceId, tokenHash, None)
    {
      this.file, this.serviceId, this.tokenHash, leaseDuration := file, serviceId, tokenHash, None;
    }

    method FindRecord() returns (at: Option<nat>)
      modifies this
      ensures (State(), at) == Access(file.records, old(State()))
      ensures at.Some? ==> leaseDuration.Some?
    {
      at := Find(file.records, serviceId);
      if at.None? || file.records[at.value].tokenHash != tokenHash {
        return None;
      }
      if leaseDuration.None? {
        var r := file.records[at.value];
        leaseDuration := Some(if r.lease - r.created < Second then Second else r.lease - r.created);
      }
    }

    method PublishService(endpoint: string, bearer: string, job: string, now: int) returns (ok: bool)
      modifies this, file
      ensures (file.records, State(), ok) == Step(old(file.records), old(State()), Publish(endpoint, bearer, job), now)
      ensures file.updatedAt == if ok then now else old(file.updatedAt)
    {
      var at := FindRecord();
      if at.None? {
        return false;
      }
      var r := file.records[at.value];
      if r.state != Starting || r.startupDeadline <= now {
        return false;
      }
      r := r.(state := Ready, endpoint := endpoint, bearer := bearer, job := if job != "" then job else r.job);
      r := r.(heartbeat := Some(now), lease := BoundedExpiry(r, now + leaseDuration.value));
      file.records := file.records[at.value := r.(healthError := "", failure := "")];
      file.updatedAt := now;
      return true;
    }

    method RenewLease(now: int) returns (ok: bool)
      modifies this, file
      ensures (file.records, State(), ok) == Step(old(file.records), old(State()), Renew, now)
      ensures file.updatedAt == if ok then now else old(file.updatedAt)
    {
      var at := FindRecord();
      if at.None? || file.records[at.value].state != Ready {
        return false;
      }
      var r := file.records[at.value].(heartbeat := Some(now));
      file.records := file.records[at.value := r.(lease := BoundedExpiry(r, now + leaseDuration.value))];
      file.updatedAt := now;
      return true;
    }

    method MarkServiceUnhealthy(reason: string, now: int) returns (ok: bool)
      modifies this, file
      ensures (file.records, State(), ok) == Step(old(file.records), old(State()), MarkUnhealthy(reason), now)
      ensures file.updatedAt == if ok then now else old(file.updatedAt)
    {
      var at := FindRecord();
      if at.None? {
        return false;
      }
      var r := file.records[at.value].(state := Unhealthy, failure := "service_failure", lease := now);
      file.records := file.records[at.value := r.(healthError := if |reason| <= 1000 then reason else reason[..1000])];
      file.updatedAt := now;
      return true;
    }
  }

  // ----- the reader -----

  function EffectiveExpiry(r: Record): int {
    BoundedExpiry(r, r.lease)
  }

  /** How old a heartbeat may be; an interval of zero counts as fifteen seconds. */
  function MaxAge(interval: int): (age: int)
    ensures interval == 0 ==> age == 45 * Second
    ensures interval >= Second ==> age == 3 * interval
    ensures interval < Second && interval != 0 ==> age == 3 * Second
  {
    var chosen := if interval == 0 then 15 * Second else interval;
    (if chosen < Second then Second else chosen) * 3
  }

  /** `reachable` tells the endpoints that are web addresses with a host. */
  predicate EndpointIsHealthy(r: Record, now: int, interval: int, reachable: string -> bool) {
    && r.state == Ready && r.healthError == "" && reachable(r.endpoint) && r.bearer != ""
    && EffectiveExpiry(r) > now && r.heartbeat.Some? && now - r.heartbeat.value <= MaxAge(interval)
  }

  // ----- runs -----

  /** Any number of publishers, restarted or not, share the registry; the broker adds reservations. */
  datatype World = World(records: seq<Record>, publishers: map<nat, Publisher>, clock: int)

  datatype Event =
    | Act(publisher: nat, action: Action)
    | StartPublisher(publisher: nat, id: string, tokenHash: string)
    | Reserve(record: Record)
    | Tick(now: int)

  function After(w: World, e: Event): World {
    match e
    case Act(k, action) =>
      if k !in w.publishers then w
      else
        var (records, p, _) := Step(w.records, w.publishers[k], action, w.clock);
        w.(records := records, publishers := w.publishers[k := p])
    case StartPublisher(k, id, tokenHash) =>
      if k in w.publishers then w else w.(publishers := w.publishers[k := Publisher(id, tokenHash, None)])
    case Reserve(record) =>
      if record.state == Starting && Find(w.records, record.id).None? then w.(records := w.records + [record]) else w
    case Tick(now) =>
      if now < w.clock then w else w.(clock := now)
  }

  function Run(w: World, events: seq<Event>): World {
    if events == [] then w else After(Run(w, events[..|events| - 1]), events[|events| - 1])
  }

  /** A ready record owes its lease to its last heartbeat and the duration of one of its publishers. */
  ghost predicate Leased(w: World, r: Record) {
    && r.heartbeat.Some? && r.heartbeat.value <= w.clock
    && exists k :: k in w.publishers && w.publishers[k].id == r.id && w.publishers[k].leaseDuration.Some?
                   && r.lease == BoundedExpiry(r, r.heartbeat.value + w.publishers[k].leaseDuration.value)
  }

  ghost predicate Good(w: World) {
    && (forall i :: 0 <= i < |w.records| && w.records[i].state == Ready ==> Leased(w, w.records[i]))
    && (forall i :: 0 <= i < |w.records| && w.records[i].state == Unhealthy ==> w.records[i].lease <= w.clock)
    && (forall k <- w.publishers :: w.publishers[k].leaseDuration.Some? ==> w.publishers[k].leaseDuration.value >= Second)
  }

  /** What one step may do: nothing, or act on the one record of its publisher. */
  lemma StepTouchesOneRecord(records: seq<Record>, p: Publisher, action: Action, now: int)
    ensures var (records', p', ok) := Step(records, p, action, now);
            && |records'| == |records| && p'.id == p.id
            && (p.leaseDuration.Some? ==> p' == p)
            && (!ok ==> records' == records)
            && forall i :: 0 <= i < |records| && records[i].id != p.id ==> records'[i] == records[i]
  {
  }

  /** Only the holder of a reservation acts on it: the record that changes has the publisher's id and token. */
  lemma OnlyTheHolderActs(records: seq<Record>, p: Publisher, action: Action, now: int, i: nat)
    requires i < |records| && Step(records, p, action, now).0[i] != records[i]
    ensures records[i].id == p.id && records[i].tokenHash == p.tokenHash && forall j :: 0 <= j < i ==> records[j].id != p.id
  {
  }

  /** The publisher's own record, if its token fits. */
  ghost predicate Holds(records: seq<Record>, p: Publisher, at: nat) {
    && at < |records| && records[at].id == p.id && records[at].tokenHash == p.tokenHash
    && forall j :: 0 <= j < at ==> records[j].id != p.id
  }

  /** What no action changes. */
  ghost predicate SameReservation(r: Record, r': Record) {
    && r'.id == r.id && r'.tokenHash == r.tokenHash && r'.created == r.created
    && r'.startupDeadline == r.startupDeadline && r'.absolute == r.absolute
  }

  /**
   Publishing succeeds exactly for a reservation that is starting and whose startup deadline has not come;
   the record is then ready, with what was published, no errors, and a lease from now on.
   */
  lemma PublishingMeans(records: seq<Record>, p: Publisher, endpoint: string, bearer: string, job: string, now: int, at: nat)
    requires Holds(records, p, at)
    ensures var (records', p', ok) := Step(records, p, Publish(endpoint, bearer, job), now);
            && (ok <==> records[at].state == Starting && now < records[at].startupDeadline)
            && (ok ==>
                  var r, r' := records[at], records'[at];
                  && SameReservation(r, r') && r'.state == Ready && r'.endpoint == endpoint && r'.bearer == bearer
                  && r'.job == (if job == "" then r.job else job) && r'.healthError == "" && r'.failure == ""
                  && r'.heartbeat == Some(now) && p'.leaseDuration.Some? && r'.lease <= now + p'.leaseDuration.value)
  {
  }

  /** Renewing succeeds exactly for a ready record, which gets a heartbeat and a lease and stays as it is otherwise. */
  lemma RenewingMeans(records: seq<Record>, p: Publisher, now: int, at: nat)
    requires Holds(records, p, at)
    ensures var (records', p', ok) := Step(records, p, Renew, now);
            && (ok <==> records[at].state == Ready)
            && (ok ==>
                  && p'.leaseDuration.Some? && records'[at].lease <= now + p'.leaseDuration.value
                  && records'[at] == records[at].(heartbeat := Some(now), lease := records'[at].lease))
  {
  }

  /** A service may always be marked unhealthy; the reason is kept, up to a thousand characters, and the lease ends now. */
  lemma MarkingMeans(records: seq<Record>, p: Publisher, reason: string, now: int, at: nat)
    requires Holds(records, p, at)
    ensures var (records', _, ok) := Step(records, p, MarkUnhealthy(reason), now);
            && ok && records'[at].state == Unhealthy && records'[at].lease == now && records'[at].failure == "service_failure"
            && records'[at].healthError <= reason && |records'[at].healthError| == Min(|reason|, 1000)
            && records'[at] == records[at].(state := Unhealthy, healthError := records'[at].healthError, failure := "service_failure", lease := now)
  {
  }

  /** A publisher without a fitting reservation changes nothing. */
  lemma StrangersChangeNothing(records: seq<Record>, p: Publisher, action: Action, now: int)
    requires forall at :: !Holds(records, p, at)
    ensures var (records', p', ok) := Step(records, p, action, now); records' == records && p' == p && !ok
  {
    var at := Find(records, p.id);
    if at.Some? {
      assert !Holds(records, p, at.value);
    }
  }

  lemma LeasedStays(w: World, w': World, r: Record)
    requires Leased(w, r) && w.clock <= w'.clock
    requires forall k :: k in w.publishers && w.publishers[k].leaseDuration.Some? ==> k in w'.publishers && w'.publishers[k] == w.publishers[k]
    ensures Leased(w', r)
  {
  }

  lemma ActKeepsGood(w: World, k: nat, action: Action)
    requires Good(w) && k in w.publishers
    ensures Good(After(w, Act(k, action)))
  {
    var p, w' := w.publishers[k], After(w, Act(k, action));
    var (records, p', ok) := Step(w.records, p, action, w.clock);
    StepTouchesOneRecord(w.records, p, action, w.clock);
    forall i | 0 <= i < |records| && records[i].state == Ready ensures Leased(w', records[i]) {
      if records[i] == w.records[i] {
        LeasedStays(w, w', records[i]);
      } else {
        ActedIsLeased(w, k, action, i);
      }
    }
  }

  lemma ActedIsLeased(w: World, k: nat, action: Action, i: nat)
    requires k in w.publishers && i < |w.records|
    requires var w' := After(w, Act(k, action)); w'.records[i] != w.records[i] && w'.records[i].state == Ready
    ensures Leased(After(w, Act(k, action)), After(w, Act(k, action)).records[i])
  {
    var w' := After(w, Act(k, action));
    assert w'.publishers[k] == Step(w.records, w.publishers[k], action, w.clock).1;
  }

  lemma EventKeepsGood(w: World, e: Event)
    requires Good(w)
    ensures Good(After(w, e))
  {
    var w' := After(w, e);
    if e.Act? && e.publisher in w.publishers {
      ActKeepsGood(w, e.publisher, e.action);
    } else {
      forall i | 0 <= i < |w'.records| && w'.records[i].state == Ready ensures Leased(w', w'.records[i]) {
        LeasedStays(w, w', w.records[i]);
      }
    }
  }

  /** In every run the leases are what they should be. */
  lemma {:induction false} RunKeepsGood(w: World, events: seq<Event>)
    requires Good(w)
    ensures Good(Run(w, events))
  {
    if events != [] {
      RunKeepsGood(w, events[..|events| - 1]);
      EventKeepsGood(Run(w, events[..|events| - 1]), events[|events| - 1]);
    }
  }

  /** In every run: a ready record's lease is within its absolute bound and within the lease duration of its last heartbeat. */
  lemma LeasesAreBounded(w: World, events: seq<Event>, i: nat)
    requires Good(w) && i < |Run(w, events).records| && Run(w, events).records[i].state == Ready
    ensures var w', r := Run(w, events), Run(w, events).records[i];
            && (Bounded(r) ==> r.lease <= r.absolute.value)
            && r.heartbeat.Some? && r.heartbeat.value <= w'.clock
            && exists k :: k in w'.publishers && w'.publishers[k].id == r.id && w'.publishers[k].leaseDuration.Some?
                           && r.lease <= r.heartbeat.value + w'.publishers[k].leaseDuration.value
  {
    RunKeepsGood(w, events);
    var w', r := Run(w, events), Run(w, events).records[i];
    assert Leased(w', r);
    var k :| k in w'.publishers && w'.publishers[k].id == r.id && w'.publishers[k].leaseDuration.Some?
             && r.lease == BoundedExpiry(r, r.heartbeat.value + w'.publishers[k].leaseDuration.value);
  }

  lemma EventKeepsPlaces(w: World, e: Event, i: nat)
    requires i < |w.records|
    ensures i < |After(w, e).records| && After(w, e).records[i].id == w.records[i].id
    ensures w.records[i].state == Unhealthy ==> After(w, e).records[i].state == Unhealthy
    ensures e.Act? && e.publisher in w.publishers && w.publishers[e.publisher].id != w.records[i].id ==> After(w, e).records[i] == w.records[i]
  {
  }

  /** No run of publishers takes a service back from unhealthy. */
  lemma {:induction false} UnhealthyIsNeverLeft(w: World, events: seq<Event>, i: nat)
    requires i < |w.records| && w.records[i].state == Unhealthy
    ensures i < |Run(w, events).records| && Run(w, events).records[i].id == w.records[i].id && Run(w, events).records[i].state == Unhealthy
  {
    if events != [] {
      UnhealthyIsNeverLeft(w, events[..|events| - 1], i);
      EventKeepsPlaces(Run(w, events[..|events| - 1]), events[|events| - 1], i);
    }
  }

  ghost predicate ByOthers(w: World, events: seq<Event>, id: string) {
    forall i :: 0 <= i < |events| && events[i].Act? && events[i].publisher in Run(w, events[..i]).publishers ==>
      Run(w, events[..i]).publishers[events[i].publisher].id != id
  }

  /** What other services do leaves a record as it is. */
  lemma {:induction false} OthersLeaveARecordAlone(w: World, events: seq<Event>, i: nat)
    requires i < |w.records| && ByOthers(w, events, w.records[i].id)
    ensures i < |Run(w, events).records| && Run(w, events).records[i] == w.records[i]
  {
    if events != [] {
      var n := |events| - 1;
      assert events[..n][..n] == events[..n];
      forall j | 0 <= j < n ensures events[..n][..j] == events[..j] {
      }
      OthersLeaveARecordAlone(w, events[..n], i);
      EventKeepsPlaces(Run(w, events[..n]), events[n], i);
    }
  }

  /** A reader of any age and interval refuses what its registry no longer vouches for. */
  lemma ReaderRefusesLateRecords(r: Record, now: int, interval: int, reachable: string -> bool)
    requires EndpointIsHealthy(r, now, interval, reachable)
    ensures r.state == Ready && now < r.lease && (Bounded(r) ==> now < r.absolute.value)
    ensures now - r.heartbeat.value <= MaxAge(interval)
    ensures interval >= Second ==> now - r.heartbeat.value <= 3 * interval
    ensures interval == 0 ==> now - r.heartbeat.value <= 45 * Second
    ensures reachable(r.endpoint) && r.bearer != "" && r.healthError == ""
  {
  }

  /** "Three intervals" is what the reader enforces exactly for intervals of a second or more. */
  lemma ThreeIntervalsIffAtLeastASecond(interval: int, reachable: string -> bool)
    requires reachable("http://host")
    ensures (forall r, now :: EndpointIsHealthy(r, now, interval, reachable) ==> now - r.heartbeat.value <= 3 * interval) <==> interval >= Second
  {
    if interval < Second {
      var r := Record("s", "h", Ready, 0, 0, MaxAge(interval) + 1, None, Some(0), "http://host", "t", "", "", "");
      assert EndpointIsHealthy(r, MaxAge(interval), interval, reachable);
    }
  }

  /** A service that has just published or renewed is accepted for as long as it should be, and no longer. */
  lemma AcceptedWhileFresh(r: Record, duration: int, action: Action, at: int, now: int, interval: int, reachable: string -> bool)
    requires Acted(r, duration, action, at).Some? && !action.MarkUnhealthy? && at <= now
    requires action.Publish? ==> reachable(action.endpoint) && action.bearer != ""
    requires action.Renew? ==> r.healthError == "" && reachable(r.endpoint) && r.bearer != ""
    ensures EndpointIsHealthy(Acted(r, duration, action, at).value, now, interval, reachable)
            <==> now < at + duration && (Bounded(r) ==> now < r.absolute.value) && now - at <= MaxAge(interval)
  {
  }

  /** A record marked unhealthy is refused from then on. */
  lemma RefusedOnceUnhealthy(r: Record, duration: int, reason: string, at: int, now: int, interval: int, reachable: string -> bool)
    ensures var r' := Acted(r, duration, MarkUnhealthy(reason), at);
            r'.Some? && !EndpointIsHealthy(r'.value, now, interval, reachable) && r'.value.lease == at
  {
  }

  /**
   The lease duration is what a publisher reads off its record at its first access: the reserved
   length for the first one, but a publisher started after renewals takes the time since creation on top.
   */
  lemma ALaterPublisherLeasesLonger(records: seq<Record>, p: Publisher, at: nat, now: int)
    requires Find(records, p.id) == Some(at) && records[at].tokenHash == p.tokenHash && records[at].state == Ready
    requires p.leaseDuration.Some? && p.leaseDuration.value >= Second && !Bounded(records[at]) && records[at].created <= now
    ensures var (renewed, _, ok) := Step(records, p, Renew, now);
            var (later, _) := Access(renewed, Publisher(p.id, p.tokenHash, None));
            && ok && later.leaseDuration == Some(p.leaseDuration.value + (now - records[at].created))
  {
    var renewed := Step(records, p, Renew, now).0;
    SameIdsSameFind(records, renewed, p.id);
    assert renewed[at].lease == now + p.leaseDuration.value && renewed[at].tokenHash == p.tokenHash;
    assert DurationOf(renewed[at]) == p.leaseDuration.value + (now - records[at].created);
  }

  lemma {:induction false} SameIdsSameFind(a: seq<Record>, b: seq<Record>, id: string)
    requires |a| == |b| && forall i :: 0 <= i < |a| ==> a[i].id == b[i].id
    ensures Find(a, id) == Find(b, id)
  {
    if a != [] {
      SameIdsSameFind(a[1..], b[1..], id);
    }
  }
}
