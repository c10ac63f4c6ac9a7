/** Why one synchronisation leaves a calendar in step, and disturbs no other. */
module SyncProofs {
  import opened Wrappers
  import opened SyncModel

  // ---- Applying changes

  lemma {:induction false} PutAllHas(objects: Objects, c: Href, upsert: seq<SyncObject>, o: Href)
    ensures o !in ObjectHrefs(upsert) ==>
      (o in PutAll(objects, c, upsert) <==> o in objects) &&
      (o in objects ==> PutAll(objects, c, upsert)[o] == objects[o])
    ensures o in ObjectHrefs(upsert) ==>
      o in PutAll(objects, c, upsert) &&
      exists u :: u in upsert && u.href == o && PutAll(objects, c, upsert)[o] == CachedObject(c, u.etag, u.ics)
  {
    if upsert != [] {
      var n := |upsert| - 1;
      PutAllHas(objects, c, upsert[..n], o);
      assert upsert == upsert[..n] + [upsert[n]];
      if upsert[n].href == o {
        assert upsert[n] in upsert;
      } else if o in ObjectHrefs(upsert[..n]) {
        var u :| u in upsert[..n] && u.href == o && PutAll(objects, c, upsert[..n])[o] == CachedObject(c, u.etag, u.ics);
        assert u in upsert;
      }
    }
  }

  lemma {:induction false} WantedAre(stored: map<Href, Option<string>>, versions: seq<Version>)
    ensures forall h :: h in WantedHrefs(stored, versions) <==>
      exists v :: v in versions && v.href == h && !IsCurrent(stored, v)
  {
    if versions != [] {
      WantedAre(stored, versions[1..]);
      assert versions == [versions[0]] + versions[1..];
    }
  }

  lemma {:induction false} ChangedAre(stored: map<Href, Option<string>>, listed: seq<SyncObject>)
    ensures forall o :: o in ChangedObjects(stored, listed) <==> o in listed && !IsCurrent(stored, VersionOf(o))
  {
    if listed != [] {
      ChangedAre(stored, listed[1..]);
      assert listed == [listed[0]] + listed[1..];
    }
  }

  /** Every changed object was fetched: the run is not `incomplete`. */
  predicate IsComplete(stored: map<Href, Option<string>>, versions: seq<Version>, upsert: seq<SyncObject>) {
    forall v :: v in versions && !IsCurrent(stored, v) ==> v.href in ObjectHrefs(upsert)
  }

  /** A stored object whose etag is current holds the body the server has under that etag. */
  lemma {:induction false} CurrentMatches(
    calendars: Calendars, objects: Objects, w: World, t: nat, c: Href, v: Version)
    requires ObjectsAreLawful(w) && AreCached(calendars, objects, w)
    requires At(w, t, c).Some? && v.href in At(w, t, c).value.objects
    requires v.etag == At(w, t, c).value.objects[v.href].etag && IsCurrent(StoredVersions(objects, c), v)
    ensures Matches(objects[v.href], c, At(w, t, c).value.objects[v.href])
  {
  }

  /** One address after the changes: as the server holds it, or untouched and still listed. */
  lemma {:induction false} AfterChanges(
    objects: Objects, w: World, c: Href, k: ServerCalendar, upsert: seq<SyncObject>, remove: set<Href>, o: Href)
    requires TruthfulObjects(upsert, k.objects)
    ensures var next := ApplyTo(objects, c, upsert, remove);
      if o in ObjectHrefs(upsert) then o in next && o in k.objects && Matches(next[o], c, k.objects[o])
      else (o in next <==> o in objects && o !in remove) && (o in next ==> next[o] == objects[o])
  {
    PutAllHas(objects - remove, c, upsert, o);
  }

  /** A full synchronisation from one state of the server brings the calendar in step with it. */
  lemma {:induction false} CompleteIsInStep(
    calendars: Calendars, objects: Objects, w: World, t: nat, c: Href, completed: bool,
    versions: seq<Version>, upsert: seq<SyncObject>)
    requires Lawful(w) && AreCached(calendars, objects, w) && At(w, t, c).Some?
    requires TruthfulVersions(versions, At(w, t, c).value.objects, completed)
    requires TruthfulObjects(upsert, At(w, t, c).value.objects)
    requires IsComplete(StoredVersions(objects, c), versions, upsert)
    ensures var remove := StoredVersions(objects, c).Keys - VersionHrefs(versions);
      InStep(ApplyTo(objects, c, upsert, remove), c, At(w, t, c).value, completed)
  {
    var k := At(w, t, c).value;
    var stored := StoredVersions(objects, c);
    var remove := stored.Keys - VersionHrefs(versions);
    var next := ApplyTo(objects, c, upsert, remove);
    forall o | o in k.objects && IsListed(k.objects[o], completed)
      ensures o in next
    {
      AfterChanges(objects, w, c, k, upsert, remove, o);
      var v :| v in versions && v.href == o;
    }
    forall o | o in next && next[o].calendarHref == c
      ensures o in k.objects && Matches(next[o], c, k.objects[o])
    {
      AfterChanges(objects, w, c, k, upsert, remove, o);
      if o !in ObjectHrefs(upsert) {
        var v :| v in versions && v.href == o;
        CurrentMatches(calendars, objects, w, t, c, v);
      }
    }
    forall o | o in k.objects && o in next
      ensures next[o].calendarHref == c
    {
      AfterChanges(objects, w, c, k, upsert, remove, o);
    }
  }

  /** A calendar in step with a server that stands still stays so, however little was fetched. */
  lemma {:induction false} PartialStaysInStep(
    objects: Objects, w: World, c: Href, k: ServerCalendar, loaded: bool, completed: bool,
    versions: seq<Version>, upsert: seq<SyncObject>)
    requires InStep(objects, c, k, loaded) && (loaded ==> completed)
    requires TruthfulVersions(versions, k.objects, completed) && TruthfulObjects(upsert, k.objects)
    ensures var remove := StoredVersions(objects, c).Keys - VersionHrefs(versions);
      InStep(ApplyTo(objects, c, upsert, remove), c, k, loaded)
  {
    var remove := StoredVersions(objects, c).Keys - VersionHrefs(versions);
    var next := ApplyTo(objects, c, upsert, remove);
    forall o
      ensures o in k.objects && IsListed(k.objects[o], loaded) ==> o in next
      ensures o in next && next[o].calendarHref == c ==> o in k.objects && Matches(next[o], c, k.objects[o])
      ensures o in k.objects && o in next ==> next[o].calendarHref == c
    {
      AfterChanges(objects, w, c, k, upsert, remove, o);
      if o in k.objects && IsListed(k.objects[o], loaded) {
        var v :| v in versions && v.href == o;
      }
    }
  }

  /** Changes to one calendar leave every other as far in step as it was. */
  lemma {:induction false} OthersStayInStep(
    objects: Objects, w: World, c: Href, k: ServerCalendar, upsert: seq<SyncObject>, remove: set<Href>,
    other: Href, theirs: ServerCalendar, completed: bool)
    requires TruthfulObjects(upsert, k.objects) && other != c
    requires forall o :: o in remove ==> o in objects && objects[o].calendarHref == c
    requires forall o :: o in theirs.objects ==> o !in k.objects
    requires InStep(objects, other, theirs, completed)
    ensures InStep(ApplyTo(objects, c, upsert, remove), other, theirs, completed)
  {
    var next := ApplyTo(objects, c, upsert, remove);
    forall o
      ensures o in theirs.objects && IsListed(theirs.objects[o], completed) ==> o in next
      ensures o in next && next[o].calendarHref == other ==>
        o in theirs.objects && Matches(next[o], other, theirs.objects[o])
      ensures o in theirs.objects && o in next ==> next[o].calendarHref == other
    {
      AfterChanges(objects, w, c, k, upsert, remove, o);
    }
  }

  lemma {:induction false} ChangesAreCached(
    calendars: Calendars, objects: Objects, w: World, t: nat, c: Href, upsert: seq<SyncObject>, remove: set<Href>)
    requires ObjectsAreLawful(w) && AreCached(calendars, objects, w) && c in calendars && At(w, t, c).Some?
    requires TruthfulObjects(upsert, At(w, t, c).value.objects)
    ensures AreCached(calendars, ApplyTo(objects, c, upsert, remove), w)
  {
    var next := ApplyTo(objects, c, upsert, remove);
    forall o | o in next
      ensures next[o].calendarHref == w.home(o) && next[o].calendarHref in calendars
      ensures next[o].etag.Some? ==> next[o].ics == w.body(o, next[o].etag.value)
    {
      AfterChanges(objects, w, c, At(w, t, c).value, upsert, remove, o);
    }
  }

  // ---- Time

  /** A marker that was current and is current again: nothing in the calendar changed between. */
  lemma {:induction false} StoodStill(w: World, c: Href, marker: string, before: nat, t: nat, now: nat)
    requires MarkersNeverReused(w) && WasCurrent(w, c, marker, before) && before <= t <= now
    requires HasMarker(w, now, c, marker)
    ensures At(w, t, c) == At(w, now, c)
  {
    var t0: nat :| t0 <= before && HasMarker(w, t0, c, marker);
    assert At(w, t, c) == At(w, t0, c) == At(w, now, c);
  }

  lemma {:induction false} HonestLater(stored: StoredCalendar, objects: Objects, w: World, t: nat, now: nat)
    requires MarkersNeverReused(w) && IsHonest(stored, objects, w, t) && t <= now
    ensures IsHonest(stored, objects, w, now)
  {
    var c := stored.listed.href;
    if stored.syncedMarker.Some? && HasMarker(w, now, c, stored.syncedMarker.value) {
      StoodStill(w, c, stored.syncedMarker.value, t, t, now);
    }
  }

  /** Time passing keeps the invariant, whatever other devices do. */
  lemma {:induction false} InvariantLater(calendars: Calendars, objects: Objects, w: World, t: nat, now: nat)
    requires MarkersNeverReused(w) && Invariant(calendars, objects, w, t) && t <= now
    ensures Invariant(calendars, objects, w, now)
  {
    forall c | c in calendars
      ensures IsHonest(calendars[c], objects, w, now)
    {
      HonestLater(calendars[c], objects, w, t, now);
    }
  }

  // ---- One synchronisation, whatever the server does meanwhile

  /** What a transport fetched: the listing at `listedAt`, the bodies at `now`. */
  ghost predicate IsFetched(
    w: World, c: Href, completed: bool, versions: seq<Version>, upsert: seq<SyncObject>,
    start: nat, listedAt: nat, now: nat)
  {
    && start <= listedAt <= now && At(w, listedAt, c).Some? && At(w, now, c).Some?
    && TruthfulVersions(versions, At(w, listedAt, c).value.objects, completed)
    && TruthfulObjects(upsert, At(w, now, c).value.objects)
  }

  function Removed(objects: Objects, c: Href, versions: seq<Version>): set<Href> {
    StoredVersions(objects, c).Keys - VersionHrefs(versions)
  }

  /** Any honest record stays honest: its own calendar if it did not load more than was asked for. */
  lemma {:induction false} RecordStaysHonest(
    s: StoredCalendar, objects: Objects, w: World, c: Href, completed: bool,
    versions: seq<Version>, upsert: seq<SyncObject>, start: nat, listedAt: nat, now: nat)
    requires Lawful(w) && IsHonest(s, objects, w, start)
    requires IsFetched(w, c, completed, versions, upsert, start, listedAt, now)
    requires s.listed.href == c && s.completedLoaded ==> completed
    ensures IsHonest(s, ApplyTo(objects, c, upsert, Removed(objects, c, versions)), w, now)
  {
    HonestLater(s, objects, w, start, now);
    if s.syncedMarker.Some? && HasMarker(w, now, s.listed.href, s.syncedMarker.value) {
      var k := At(w, now, c).value;
      if s.listed.href == c {
        StoodStill(w, c, s.syncedMarker.value, start, listedAt, now);
        PartialStaysInStep(objects, w, c, k, s.completedLoaded, completed, versions, upsert);
      } else {
        var theirs := At(w, now, s.listed.href).value;
        assert forall o :: o in theirs.objects ==> w.home(o) == s.listed.href;
        OthersStayInStep(objects, w, c, k, upsert, Removed(objects, c, versions), s.listed.href, theirs, s.completedLoaded);
      }
    }
  }

  /** The record a complete synchronisation stores is honest. */
  lemma {:induction false} SyncedRecordIsHonest(
    calendars: Calendars, objects: Objects, w: World, calendar: StoredCalendar, completed: bool,
    versions: seq<Version>, upsert: seq<SyncObject>, start: nat, listedAt: nat, now: nat)
    requires Lawful(w) && AreCached(calendars, objects, w) && IsHonest(calendar, objects, w, start)
    requires IsFetched(w, calendar.listed.href, completed, versions, upsert, start, listedAt, now)
    requires IsComplete(StoredVersions(objects, calendar.listed.href), versions, upsert)
    ensures var c := calendar.listed.href;
      var synced := calendar.(syncedMarker := calendar.listed.changeMarker, completedLoaded := completed);
      IsHonest(synced, ApplyTo(objects, c, upsert, Removed(objects, c, versions)), w, now)
  {
    var c := calendar.listed.href;
    if calendar.listed.changeMarker.Some? && HasMarker(w, now, c, calendar.listed.changeMarker.value) {
      StoodStill(w, c, calendar.listed.changeMarker.value, start, listedAt, now);
      CompleteIsInStep(calendars, objects, w, now, c, completed, versions, upsert);
    }
  }

  /** The invariant after the changes are stored under `next`, an honest record of the same calendar. */
  lemma {:induction false} InvariantAfterChanges(
    calendars: Calendars, objects: Objects, w: World, next: StoredCalendar, completed: bool,
    versions: seq<Version>, upsert: seq<SyncObject>, start: nat, listedAt: nat, now: nat)
    requires var c := next.listed.href;
      && Lawful(w) && Invariant(calendars, objects, w, start) && c in calendars
      && IsFetched(w, c, completed, versions, upsert, start, listedAt, now)
      && IsHonest(next, ApplyTo(objects, c, upsert, Removed(objects, c, versions)), w, now)
    ensures var c := next.listed.href;
      Invariant(calendars[c := next], ApplyTo(objects, c, upsert, Removed(objects, c, versions)), w, now)
  {
    var c := next.listed.href;
    var remove := Removed(objects, c, versions);
    ChangesAreCached(calendars, objects, w, now, c, upsert, remove);
    forall h | h in calendars && h != c
      ensures IsHonest(calendars[h], ApplyTo(objects, c, upsert, remove), w, now)
    {
      RecordStaysHonest(calendars[h], objects, w, c, completed, versions, upsert, start, listedAt, now);
    }
    assert AreCached(calendars[c := next], ApplyTo(objects, c, upsert, remove), w);
  }

  /** An answered listing: every record carries the marker the server had at `now`. */
  lemma {:induction false} ListedIsHonest(
    before: Calendars, objects: Objects, w: World, start: nat, now: nat, listed: Calendar, server: Server)
    requires MarkersNeverReused(w) && Invariant(before, objects, w, start) && start <= now && server == w.history(now)
    requires listed.href in server && listed.changeMarker == server[listed.href].marker
    ensures IsHonest(NextRecord(before, listed), objects, w, now)
  {
    if listed.changeMarker.Some? {
      assert HasMarker(w, now, listed.href, listed.changeMarker.value);
    }
    if listed.href in before {
      HonestLater(before[listed.href], objects, w, start, now);
    }
  }

  /** What `run` stores for a listed calendar: how far the copy was in step before. */
  function NextRecord(before: Calendars, listed: Calendar): StoredCalendar {
    if listed.href in before then before[listed.href].(listed := listed)
    else StoredCalendar(listed, None, false)
  }
}
