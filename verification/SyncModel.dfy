/**
 * The values of `caldav/sync.ts` and `caldav/indexeddb.ts`, the server as it changes over time, and
 * what it means that a stored calendar is in step with it.
 */
module SyncModel {
  import opened Wrappers

  type Href = string

  /** A calendar as the server lists it. `extra` stands for the fields the engine does not read. */
  datatype Calendar = Calendar(href: Href, changeMarker: Option<string>, extra: string)

  datatype StoredCalendar = StoredCalendar(listed: Calendar, syncedMarker: Option<string>, completedLoaded: bool)

  datatype SyncObject = SyncObject(href: Href, etag: Option<string>, ics: string)

  datatype Version = Version(href: Href, etag: Option<string>)

  datatype CachedObject = CachedObject(calendarHref: Href, etag: Option<string>, ics: string)

  /** What a transport call reports; `offline` means no answer at all. */
  datatype Answer<+T> = Data(data: T) | Failed(offline: bool)

  // ---- The server and its history

  datatype ServerObject = ServerObject(etag: Option<string>, ics: string, completed: bool)

  datatype ServerCalendar = ServerCalendar(marker: Option<string>, objects: map<Href, ServerObject>)

  type Server = map<Href, ServerCalendar>

  /**
   * The server at every instant, whoever changes it; the calendar each address lies in; and the
   * body each etag names.
   */
  datatype World = World(history: nat -> Server, home: Href -> Href, body: (Href, string) -> string)

  function At(w: World, t: nat, c: Href): Option<ServerCalendar> {
    if c in w.history(t) then Some(w.history(t)[c]) else None
  }

  predicate HasMarker(w: World, t: nat, c: Href, marker: string) {
    At(w, t, c).Some? && At(w, t, c).value.marker == Some(marker)
  }

  /** A marker names one state of its calendar and never comes back once it is gone. */
  ghost predicate MarkersNeverReused(w: World) {
    forall c, m, t1: nat, t2: nat, t3: nat ::
      t1 <= t2 <= t3 && HasMarker(w, t1, c, m) && HasMarker(w, t3, c, m) ==> At(w, t2, c) == At(w, t1, c)
  }

  /** An etag names one body of its object, and an object lies in one calendar. */
  ghost predicate ObjectsAreLawful(w: World) {
    forall t: nat, c, o ::
      At(w, t, c).Some? && o in At(w, t, c).value.objects ==>
        w.home(o) == c &&
        (At(w, t, c).value.objects[o].etag.Some? ==>
           At(w, t, c).value.objects[o].ics == w.body(o, At(w, t, c).value.objects[o].etag.value))
  }

  ghost predicate Lawful(w: World) {
    MarkersNeverReused(w) && ObjectsAreLawful(w)
  }

  /** Nothing on the server changes between two instants. */
  ghost predicate Unchanged(w: World, from: nat, to: nat) {
    forall t: nat :: from <= t <= to ==> w.history(t) == w.history(from)
  }

  // ---- Truthful answers

  predicate IsListed(o: ServerObject, completed: bool) {
    completed || !o.completed
  }

  predicate TruthfulCalendars(data: seq<Calendar>, server: Server) {
    && (forall c :: c in data ==> c.href in server && c.changeMarker == server[c.href].marker)
    && (forall h :: h in server ==> exists c :: c in data && c.href == h)
  }

  /** Exactly the open objects, or all of them, each under its etag. */
  predicate TruthfulVersions(data: seq<Version>, objects: map<Href, ServerObject>, completed: bool) {
    && (forall v :: v in data ==> v.href in objects && IsListed(objects[v.href], completed) &&
                                  v.etag == objects[v.href].etag)
    && (forall h :: h in objects && IsListed(objects[h], completed) ==> exists v :: v in data && v.href == h)
  }

  /** Objects as the server holds them; some may be left out. */
  predicate TruthfulObjects(data: seq<SyncObject>, objects: map<Href, ServerObject>) {
    forall o :: o in data ==>
      o.href in objects && o.etag == objects[o.href].etag && o.ics == objects[o.href].ics
  }

  // ---- The copy

  type Calendars = map<Href, StoredCalendar>
  type Objects = map<Href, CachedObject>

  predicate Matches(cached: CachedObject, c: Href, o: ServerObject) {
    cached == CachedObject(c, o.etag, o.ics)
  }

  /** Every listed object is stored as the server holds it, and nothing else is. */
  predicate InStep(objects: Objects, c: Href, calendar: ServerCalendar, completed: bool) {
    && (forall o :: o in calendar.objects && IsListed(calendar.objects[o], completed) ==> o in objects)
    && (forall o :: o in objects && objects[o].calendarHref == c ==>
          o in calendar.objects && Matches(objects[o], c, calendar.objects[o]))
    && (forall o :: o in calendar.objects && o in objects ==> objects[o].calendarHref == c)
  }

  ghost predicate WasCurrent(w: World, c: Href, marker: string, now: nat) {
    exists t: nat :: t <= now && HasMarker(w, t, c, marker)
  }

  /** A synced marker that is the server's own marker means the copy is in step. */
  ghost predicate IsHonest(stored: StoredCalendar, objects: Objects, w: World, now: nat) {
    var c := stored.listed.href;
    && (stored.listed.changeMarker.Some? ==> WasCurrent(w, c, stored.listed.changeMarker.value, now))
    && (stored.syncedMarker.Some? ==>
          && WasCurrent(w, c, stored.syncedMarker.value, now)
          && (HasMarker(w, now, c, stored.syncedMarker.value) ==>
                InStep(objects, c, At(w, now, c).value, stored.completedLoaded)))
  }

  /** Cached objects lie where they belong, under a stored calendar, with the body their etag names. */
  ghost predicate AreCached(calendars: Calendars, objects: Objects, w: World) {
    forall o :: o in objects ==>
      && objects[o].calendarHref == w.home(o) && objects[o].calendarHref in calendars
      && (objects[o].etag.Some? ==> objects[o].ics == w.body(o, objects[o].etag.value))
  }

  /** What every run keeps. */
  ghost predicate Invariant(calendars: Calendars, objects: Objects, w: World, now: nat) {
    && (forall c :: c in calendars ==>
          calendars[c].listed.href == c && IsHonest(calendars[c], objects, w, now))
    && AreCached(calendars, objects, w)
  }

  // ---- What one synchronisation changes

  function StoredVersions(objects: Objects, c: Href): map<Href, Option<string>> {
    map o | o in objects && objects[o].calendarHref == c :: objects[o].etag
  }

  /** `isCurrent`: an object without an etag always counts as different. */
  predicate IsCurrent(stored: map<Href, Option<string>>, v: Version) {
    v.etag.Some? && v.href in stored && stored[v.href] == v.etag
  }

  function WantedHrefs(stored: map<Href, Option<string>>, versions: seq<Version>): seq<Href> {
    if versions == [] then []
    else
      (if IsCurrent(stored, versions[0]) then [] else [versions[0].href]) + WantedHrefs(stored, versions[1..])
  }

  function VersionOf(o: SyncObject): Version {
    Version(o.href, o.etag)
  }

  function ChangedObjects(stored: map<Href, Option<string>>, listed: seq<SyncObject>): seq<SyncObject> {
    if listed == [] then []
    else
      (if IsCurrent(stored, VersionOf(listed[0])) then [] else [listed[0]]) + ChangedObjects(stored, listed[1..])
  }

  function VersionsOf(listed: seq<SyncObject>): (versions: seq<Version>)
    ensures |versions| == |listed|
    ensures forall i :: 0 <= i < |listed| ==> versions[i] == VersionOf(listed[i])
  {
    seq(|listed|, i requires 0 <= i < |listed| => VersionOf(listed[i]))
  }

  function VersionHrefs(versions: seq<Version>): set<Href> {
    set v | v in versions :: v.href
  }

  function ObjectHrefs(objects: seq<SyncObject>): set<Href> {
    set o | o in objects :: o.href
  }

  /** `objectStore.put` of every object in turn; the last one under an address stays. */
  function PutAll(objects: Objects, c: Href, upsert: seq<SyncObject>): Objects {
    if upsert == [] then objects
    else
      var n := |upsert| - 1;
      PutAll(objects, c, upsert[..n])[upsert[n].href := CachedObject(c, upsert[n].etag, upsert[n].ics)]
  }

  function ApplyTo(objects: Objects, c: Href, upsert: seq<SyncObject>, remove: set<Href>): Objects {
    PutAll(objects - remove, c, upsert)
  }
}
