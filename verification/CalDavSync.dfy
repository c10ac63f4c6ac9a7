/** The engine of `caldav/sync.ts`: a store brought up to date over a transport. */
module SyncEngine {
  import opened Wrappers
  import opened SyncModel
  import opened SyncProofs
  import opened SyncCalls
  import opened IndexedDbCache
  import opened SyncTransport

  /** What one calendar's synchronisation did. */
  datatype Counts = Counts(written: nat, removed: nat, incomplete: bool)

  datatype Fetched = Fetched(versions: seq<Version>, upsert: seq<SyncObject>, incomplete: bool, ghost listedAt: nat)

  datatype SyncOutcome = SyncOutcome(answered: bool, failed: seq<Href>, written: nat, removed: nat)

  /** Every calendar of the server is stored, synced under its marker, and in step. */
  ghost predicate AllInStep(calendars: Calendars, objects: Objects, server: Server) {
    calendars.Keys == server.Keys && forall c :: c in server ==> IsSynced(calendars, objects, c, server[c])
  }

  ghost predicate IsSynced(calendars: Calendars, objects: Objects, c: Href, k: ServerCalendar) {
    && c in calendars && calendars[c].listed.changeMarker == k.marker && calendars[c].syncedMarker == k.marker
    && InStep(objects, c, k, calendars[c].completedLoaded)
  }

  /** The store holds exactly the server's calendars, each under a marker that is the server's own. */
  predicate IsSettled(calendars: Calendars, server: Server) {
    calendars.Keys == server.Keys &&
    forall c :: c in server ==> server[c].marker.Some? && calendars[c].syncedMarker == server[c].marker
  }

  lemma {:induction false} WithoutIsHonest(
    s: StoredCalendar, objects: Objects, dropped: set<Href>, w: World, now: nat)
    requires IsHonest(s, objects, w, now) && s.listed.href !in dropped
    requires ObjectsAreLawful(w) && forall o :: o in objects ==> objects[o].calendarHref == w.home(o)
    ensures IsHonest(s, WithoutCalendars(objects, dropped), w, now)
  {
  }

  function NextRecords(before: Calendars, listed: seq<Calendar>): (next: seq<StoredCalendar>)
    ensures |next| == |listed| && forall i :: 0 <= i < |listed| ==> next[i] == NextRecord(before, listed[i])
  {
    seq(|listed|, i requires 0 <= i < |listed| => NextRecord(before, listed[i]))
  }

  lemma {:induction false} NextHrefs(before: Calendars, listed: seq<Calendar>, server: Server)
    requires TruthfulCalendars(listed, server)
    ensures CalendarHrefs(NextRecords(before, listed)) == server.Keys
  {
    var next := NextRecords(before, listed);
    forall i | 0 <= i < |next|
      ensures next[i].listed.href in server
    {
      assert listed[i] in listed;
    }
    forall h | h in server
      ensures h in CalendarHrefs(next)
    {
      var c :| c in listed && c.href == h;
      var i :| 0 <= i < |listed| && listed[i] == c;
      assert next[i] in next && next[i].listed.href == h;
    }
  }

  lemma {:induction false} NextAreHonest(
    before: Calendars, objects: Objects, w: World, start: nat, now: nat, listed: seq<Calendar>)
    requires Lawful(w) && Invariant(before, objects, w, start) && start <= now
    requires TruthfulCalendars(listed, w.history(now))
    ensures var next := NextRecords(before, listed);
      forall s :: s in next ==>
        IsHonest(s, WithoutCalendars(objects, before.Keys - CalendarHrefs(next)), w, now)
  {
    var next := NextRecords(before, listed);
    var dropped := before.Keys - CalendarHrefs(next);
    forall s | s in next
      ensures IsHonest(s, WithoutCalendars(objects, dropped), w, now)
    {
      var i :| 0 <= i < |next| && next[i] == s;
      assert listed[i] in listed;
      ListedIsHonest(before, objects, w, start, now, listed[i], w.history(now));
      WithoutIsHonest(s, objects, dropped, w, now);
    }
  }

  /** The stored calendars after `replaceCalendars`: the server's, each with its old progress. */
  lemma {:induction false} ReplacedKeepsInvariant(
    before: Calendars, objects: Objects, w: World, start: nat, now: nat, listed: seq<Calendar>)
    requires Lawful(w) && Invariant(before, objects, w, start) && start <= now
    requires TruthfulCalendars(listed, w.history(now))
    ensures var next := NextRecords(before, listed);
      var kept := WithoutCalendars(objects, before.Keys - CalendarHrefs(next));
      && Invariant(KeyedBy(next), kept, w, now)
      && KeyedBy(next).Keys == w.history(now).Keys
      && forall s :: s in next ==> IsHonest(s, kept, w, now)
  {
    var next := NextRecords(before, listed);
    KeyedByHrefs(next);
    NextHrefs(before, listed, w.history(now));
    NextAreHonest(before, objects, w, start, now, listed);
  }

  // ---- What the engine relies on from one step to the next

  /** The record stored after a fetch is honest, whether the fetch was complete or not. */
  lemma {:induction false} NextIsHonest(
    calendars: Calendars, objects: Objects, w: World, calendar: StoredCalendar, completed: bool,
    versions: seq<Version>, upsert: seq<SyncObject>, start: nat, listedAt: nat, now: nat)
    requires Lawful(w) && AreCached(calendars, objects, w) && IsHonest(calendar, objects, w, start)
    requires IsFetched(w, calendar.listed.href, completed, versions, upsert, start, listedAt, now)
    requires calendar.completedLoaded ==> completed
    ensures var c := calendar.listed.href;
      var after := ApplyTo(objects, c, upsert, Removed(objects, c, versions));
      && IsHonest(calendar, after, w, now)
      && (IsComplete(StoredVersions(objects, c), versions, upsert) ==>
            IsHonest(calendar.(syncedMarker := calendar.listed.changeMarker, completedLoaded := completed), after, w, now))
  {
    var c := calendar.listed.href;
    RecordStaysHonest(calendar, objects, w, c, completed, versions, upsert, start, listedAt, now);
    if IsComplete(StoredVersions(objects, c), versions, upsert) {
      SyncedRecordIsHonest(calendars, objects, w, calendar, completed, versions, upsert, start, listedAt, now);
    }
  }

  lemma {:induction false} OthersAfterChanges(
    others: seq<StoredCalendar>, objects: Objects, w: World, c: Href, completed: bool,
    versions: seq<Version>, upsert: seq<SyncObject>, start: nat, listedAt: nat, now: nat)
    requires Lawful(w) && IsFetched(w, c, completed, versions, upsert, start, listedAt, now)
    requires forall s :: s in others ==>
      IsHonest(s, objects, w, start) && (s.listed.href == c && s.completedLoaded ==> completed)
    ensures forall s :: s in others ==>
      IsHonest(s, ApplyTo(objects, c, upsert, Removed(objects, c, versions)), w, now)
  {
    forall s | s in others
      ensures IsHonest(s, ApplyTo(objects, c, upsert, Removed(objects, c, versions)), w, now)
    {
      RecordStaysHonest(s, objects, w, c, completed, versions, upsert, start, listedAt, now);
    }
  }

  /** Every other calendar that was in step with the server still is. */
  ghost predicate KeepsOthersInStep(objects: Objects, after: Objects, c: Href, server: Server) {
    forall other, loaded ::
      other in server && other != c && InStep(objects, other, server[other], loaded) ==>
        InStep(after, other, server[other], loaded)
  }

  lemma {:induction false} InStepAfterChanges(
    objects: Objects, w: World, c: Href, completed: bool,
    versions: seq<Version>, upsert: seq<SyncObject>, start: nat, listedAt: nat, now: nat)
    requires ObjectsAreLawful(w) && IsFetched(w, c, completed, versions, upsert, start, listedAt, now)
    ensures KeepsOthersInStep(objects, ApplyTo(objects, c, upsert, Removed(objects, c, versions)), c, w.history(now))
  {
    forall other, loaded | other in w.history(now) && other != c && InStep(objects, other, w.history(now)[other], loaded)
      ensures InStep(ApplyTo(objects, c, upsert, Removed(objects, c, versions)), other, w.history(now)[other], loaded)
    {
      var theirs := At(w, now, other).value;
      assert forall o :: o in theirs.objects ==> w.home(o) == other;
      OthersStayInStep(objects, w, c, At(w, now, c).value, upsert, Removed(objects, c, versions), other, theirs, loaded);
    }
  }

  /** `incomplete`: some wanted address did not come. */
  lemma {:induction false} CameIsComplete(
    stored: map<Href, Option<string>>, versions: seq<Version>, upsert: seq<SyncObject>)
    ensures (exists h :: h in WantedHrefs(stored, versions) && h !in ObjectHrefs(upsert)) <==>
            !IsComplete(stored, versions, upsert)
  {
    WantedAre(stored, versions);
    if !IsComplete(stored, versions, upsert) {
      var v :| v in versions && !IsCurrent(stored, v) && v.href !in ObjectHrefs(upsert);
      assert v.href in WantedHrefs(stored, versions);
    }
  }

  /** What was listed while nothing changes is what there is now. */
  lemma {:induction false} ListedNow(
    w: World, c: Href, completed: bool, versions: seq<Version>, upsert: seq<SyncObject>, start: nat, listedAt: nat,
    now: nat)
    requires IsFetched(w, c, completed, versions, upsert, start, listedAt, now) && Unchanged(w, start, now)
    ensures At(w, now, c).Some? && TruthfulVersions(versions, At(w, now, c).value.objects, completed)
    ensures TruthfulObjects(upsert, At(w, now, c).value.objects)
  {
  }

  /** The record of a calendar after its difference was written: its progress moves when nothing was left out. */
  function RecordAfter(calendar: StoredCalendar, completed: bool, incomplete: bool): StoredCalendar {
    if incomplete then calendar
    else calendar.(syncedMarker := calendar.listed.changeMarker, completedLoaded := completed)
  }

  ghost predicate AreHonest(records: seq<StoredCalendar>, objects: Objects, w: World, now: nat) {
    forall s :: s in records ==> IsHonest(s, objects, w, now)
  }

  lemma {:induction false} OneIsHonest(
    records: seq<StoredCalendar>, objects: Objects, w: World, now: nat, record: StoredCalendar)
    requires AreHonest(records, objects, w, now) && record in records
    ensures IsHonest(record, objects, w, now)
  {
  }

  lemma {:induction false} AreHonestLater(
    records: seq<StoredCalendar>, objects: Objects, w: World, start: nat, now: nat)
    requires Lawful(w) && AreHonest(records, objects, w, start) && start <= now
    ensures AreHonest(records, objects, w, now)
  {
    hide IsHonest;
    forall s | s in records
      ensures IsHonest(s, objects, w, now)
    {
      HonestLater(s, objects, w, start, now);
    }
  }

  /** The calendar and its objects after a fetch was written. */
  ghost predicate IsInStepAfter(
    after: Objects, w: World, c: Href, completed: bool, incomplete: bool, start: nat, now: nat)
  {
    !incomplete && Unchanged(w, start, now) ==>
      c in w.history(now) && InStep(after, c, w.history(now)[c], completed)
  }

  /** Writing what was fetched keeps everything that a run relies on. */
  lemma {:induction false} FetchIsWritten(
    calendars: Calendars, objects: Objects, w: World, calendar: StoredCalendar, completed: bool,
    others: seq<StoredCalendar>, versions: seq<Version>, upsert: seq<SyncObject>, start: nat, listedAt: nat, now: nat)
    requires Lawful(w) && Invariant(calendars, objects, w, start) && calendar.listed.href in calendars
    requires IsHonest(calendar, objects, w, start) && (calendar.completedLoaded ==> completed)
    requires AreHonest(others, objects, w, start)
    requires forall s :: s in others && s.listed.href == calendar.listed.href && s.completedLoaded ==> completed
    requires IsFetched(w, calendar.listed.href, completed, versions, upsert, start, listedAt, now)
    ensures var c := calendar.listed.href;
      var after := ApplyTo(objects, c, upsert, Removed(objects, c, versions));
      var incomplete := !IsComplete(StoredVersions(objects, c), versions, upsert);
      && Invariant(calendars[c := RecordAfter(calendar, completed, incomplete)], after, w, now)
      && AreHonest(others, after, w, now) && IsInStepAfter(after, w, c, completed, incomplete, start, now)
      && KeepsOthersInStep(objects, after, c, w.history(now))
  {
    hide IsHonest, InStep, Matches, ApplyTo, IsComplete, IsFetched, KeepsOthersInStep;
    var c := calendar.listed.href;
    var incomplete := !IsComplete(StoredVersions(objects, c), versions, upsert);
    var next := RecordAfter(calendar, completed, incomplete);
    NextIsHonest(calendars, objects, w, calendar, completed, versions, upsert, start, listedAt, now);
    InvariantAfterChanges(calendars, objects, w, next, completed, versions, upsert, start, listedAt, now);
    OthersAfterChanges(others, objects, w, c, completed, versions, upsert, start, listedAt, now);
    if !incomplete && Unchanged(w, start, now) {
      ListedNow(w, c, completed, versions, upsert, start, listedAt, now);
      CompleteIsInStep(calendars, objects, w, now, c, completed, versions, upsert);
    }
    InStepAfterChanges(objects, w, c, completed, versions, upsert, start, listedAt, now);
  }

  lemma {:induction false} UnchangedHalves(w: World, start: nat, middle: nat, now: nat)
    requires Unchanged(w, start, now) && start <= middle <= now
    ensures Unchanged(w, start, middle) && Unchanged(w, middle, now) && w.history(now) == w.history(middle)
  {
  }

  /** A run that was answered ends offline when its calls after the listing do. */
  lemma {:induction false} EndOfBoth(listing: Call, calls: seq<Call>)
    requires FailureOf(listing).None?
    ensures EndsOffline([listing] + calls) <==> EndsOffline(calls)
  {
    if calls == [] {
      assert [listing] + calls == [listing];
    }
  }

  lemma {:induction false} KeepsItself(objects: Objects, c: Href, server: Server)
    ensures KeepsOthersInStep(objects, objects, c, server)
  {
  }

  lemma {:induction false} NothingWanted(w: World, c: Href, now: nat)
    ensures At(w, now, c).Some? ==> TruthfulObjects([], At(w, now, c).value.objects)
  {
  }

  lemma {:induction false} NothingCounted(objects: Objects)
    ensures TotalPut([]) == 0 && TotalDropped([]) == 0 && Written(objects, []) == objects
    ensures Failures([]) == [] && Opened([]) == [] && Moved([]) == []
  {
  }

  /** What is asked for is what is stale. */
  lemma {:induction false} WantedAreStale(stored: map<Href, Option<string>>, versions: seq<Version>)
    ensures forall h :: h in WantedHrefs(stored, versions) <==>
      exists v :: v in versions && v.href == h && IsStale(stored, v)
    ensures WantedHrefs(stored, versions) != [] <==> HasStale(stored, versions)
  {
    hide WantedHrefs;
    WantedAre(stored, versions);
    forall v
      ensures IsStale(stored, v) <==> !IsCurrent(stored, v)
    {
      StaleIsNotCurrent(stored, v);
    }
    hide IsStale, IsCurrent;
    var wanted := WantedHrefs(stored, versions);
    if wanted != [] {
      assert wanted[0] in wanted;
    }
    if HasStale(stored, versions) {
      var v :| v in versions && IsStale(stored, v);
      assert v.href in wanted;
    }
  }

  function SyncedBefore(before: Calendars, c: Href): Option<string> {
    if c in before then before[c].syncedMarker else None
  }

  predicate LoadedBefore(before: Calendars, c: Href) {
    c in before && before[c].completedLoaded
  }

  /** A stored record during a refresh: listed as `k`, and synced before or by this refresh. */
  predicate Agrees(stored: StoredCalendar, before: Calendars, k: ServerCalendar) {
    && stored.listed.changeMarker == k.marker
    && stored.completedLoaded == LoadedBefore(before, stored.listed.href)
    && (stored.syncedMarker == k.marker || stored.syncedMarker == SyncedBefore(before, stored.listed.href))
  }

  lemma {:induction false} RecordsAgree(before: Calendars, listed: seq<Calendar>, server: Server)
    requires TruthfulCalendars(listed, server)
    requires forall c :: c in before ==> before[c].listed.href == c
    ensures var next := NextRecords(before, listed);
      && (forall i :: 0 <= i < |next| ==>
            next[i].listed.href in server && Agrees(next[i], before, server[next[i].listed.href]) &&
            next[i].syncedMarker == SyncedBefore(before, next[i].listed.href))
      && (forall h :: h in KeyedBy(next) ==> h in server && Agrees(KeyedBy(next)[h], before, server[h]))
  {
    var next := NextRecords(before, listed);
    KeyedByHrefs(next);
    forall i | 0 <= i < |next|
      ensures next[i].listed.href in server && Agrees(next[i], before, server[next[i].listed.href])
    {
      assert listed[i] in listed;
    }
  }

  lemma {:induction false} SettledIsSkipped(before: Calendars, objects: Objects, listed: seq<Calendar>, server: Server)
    requires TruthfulCalendars(listed, server) && IsSettled(before, server)
    ensures var next := NextRecords(before, listed);
      && WithoutCalendars(objects, before.Keys - CalendarHrefs(next)) == objects
      && forall s :: s in next ==> IsSkipped(s)
  {
    var next := NextRecords(before, listed);
    forall c | c in before
      ensures c in CalendarHrefs(next)
    {
      var l :| l in listed && l.href == c;
      var i :| 0 <= i < |listed| && listed[i] == l;
      assert next[i] in next && next[i].listed.href == c;
    }
    forall i | 0 <= i < |next|
      ensures IsSkipped(next[i])
    {
      assert listed[i] in listed;
    }
  }

  lemma OneMoreHref(calendars: seq<StoredCalendar>, i: nat)
    requires i < |calendars|
    ensures CalendarHrefs(calendars[..i + 1]) == CalendarHrefs(calendars[..i]) + {calendars[i].listed.href}
  {
    assert calendars[..i + 1] == calendars[..i] + [calendars[i]];
  }

  /** A calendar skipped because its marker did not move is in step already. */
  lemma {:induction false} SkippedIsSynced(
    calendars: Calendars, objects: Objects, w: World, now: nat, before: Calendars, calendar: StoredCalendar)
    requires var c := calendar.listed.href;
      && c in w.history(now) && c in calendars && IsHonest(calendar, objects, w, now)
      && calendars[c].listed.href == c
      && Agrees(calendar, before, w.history(now)[c]) && Agrees(calendars[c], before, w.history(now)[c])
      && calendar.syncedMarker == SyncedBefore(before, c)
      && IsSkipped(calendar)
    ensures IsSynced(calendars, objects, calendar.listed.href, w.history(now)[calendar.listed.href])
  {
    assert HasMarker(w, now, calendar.listed.href, calendar.syncedMarker.value);
  }

  /** Storing one more honest record keeps every record in agreement with the listing. */
  lemma {:induction false} StillAgree(calendars: Calendars, next: StoredCalendar, before: Calendars, server: Server)
    requires calendars.Keys == server.Keys && next.listed.href in server
    requires forall h :: h in calendars ==> Agrees(calendars[h], before, server[h])
    requires Agrees(next, before, server[next.listed.href])
    ensures var after := calendars[next.listed.href := next];
      after.Keys == server.Keys && forall h :: h in after ==> Agrees(after[h], before, server[h])
  {
  }

  /** The calendars done before stay synced when one more is. */
  lemma {:induction false} StillSynced(
    calendars: Calendars, objects: Objects, after: Objects, next: StoredCalendar, server: Server, done: set<Href>)
    requires next.listed.href in server && done <= server.Keys
    requires forall c :: c in done ==> IsSynced(calendars, objects, c, server[c])
    requires KeepsOthersInStep(objects, after, next.listed.href, server)
    requires next.listed.changeMarker == next.syncedMarker == server[next.listed.href].marker
    requires InStep(after, next.listed.href, server[next.listed.href], next.completedLoaded)
    ensures forall c :: c in done + {next.listed.href} ==>
      IsSynced(calendars[next.listed.href := next], after, c, server[c])
  {
  }

  /** The calendars done before stay synced when another one is written. */
  lemma {:induction false} OthersStillSynced(
    calendars: Calendars, objects: Objects, after: Objects, next: StoredCalendar, server: Server, done: set<Href>)
    requires next.listed.href in server && done <= server.Keys && next.listed.href !in done
    requires forall c :: c in done ==> IsSynced(calendars, objects, c, server[c])
    requires KeepsOthersInStep(objects, after, next.listed.href, server)
    ensures forall c :: c in done ==> IsSynced(calendars[next.listed.href := next], after, c, server[c])
  {
  }

  /** Of calendars done, all are synced. */
  ghost predicate AreSynced(calendars: Calendars, objects: Objects, done: set<Href>, server: Server) {
    done <= server.Keys && forall c :: c in done ==> IsSynced(calendars, objects, c, server[c])
  }

  /** The counts of an outcome are the objects put and dropped by the writes since `from` and `changes`. */
  predicate IsCounted(
    outcome: SyncOutcome, objects: Objects, writes: seq<Change>, from: Objects, changes: seq<Change>)
  {
    && changes <= writes
    && var since := writes[|changes|..];
      && outcome.written == TotalPut(since) && outcome.removed == TotalDropped(since)
      && objects == Written(from, since)
  }

  lemma {:induction false} CountsGrow(
    outcome: SyncOutcome, after: SyncOutcome, objects: Objects, writes: seq<Change>, from: Objects,
    changes: seq<Change>, change: Change)
    requires IsCounted(outcome, objects, writes, from, changes)
    requires after.written == outcome.written + |change.upsert| && after.removed == outcome.removed + |change.remove|
    ensures IsCounted(after, ApplyTo(objects, change.record.listed.href, change.upsert, change.remove),
      writes + [change], from, changes)
  {
    hide ApplyTo, TotalPut, TotalDropped, Written;
    OneMoreChange(from, writes[|changes|..], change);
    assert (writes + [change])[|changes|..] == writes[|changes|..] + [change];
  }

  lemma {:induction false} FailureIsNotCounted(
    outcome: SyncOutcome, failed: seq<Href>, objects: Objects, writes: seq<Change>, from: Objects,
    changes: seq<Change>)
    requires IsCounted(outcome, objects, writes, from, changes)
    ensures IsCounted(outcome.(failed := failed), objects, writes, from, changes)
  {
  }

  /** A calendar that fails is left out of those done. */
  lemma {:induction false} FailedIsLeftOut(
    calendars: Calendars, objects: Objects, c: Href, server: Server, done: set<Href>, failed: seq<Href>)
    requires c in server && AreSynced(calendars, objects, done - HrefsIn(failed), server)
    ensures AreSynced(calendars, objects, done + {c} - HrefsIn(failed + [c]), server)
  {
    hide IsSynced;
  }

  /** What one more written calendar does to those done. */
  lemma {:induction false} SyncedAfter(
    calendars: Calendars, objects: Objects, after: Objects, next: StoredCalendar, incomplete: bool, server: Server,
    done: set<Href>, failed: seq<Href>)
    requires next.listed.href in server && AreSynced(calendars, objects, done - HrefsIn(failed), server)
    requires KeepsOthersInStep(objects, after, next.listed.href, server)
    requires !incomplete ==>
      && next.listed.changeMarker == next.syncedMarker == server[next.listed.href].marker
      && InStep(after, next.listed.href, server[next.listed.href], next.completedLoaded)
    ensures var left := if incomplete then failed + [next.listed.href] else failed;
      AreSynced(calendars[next.listed.href := next], after, done + {next.listed.href} - HrefsIn(left), server)
  {
    hide IsSynced, KeepsOthersInStep, InStep;
    if incomplete {
      OthersStillSynced(calendars, objects, after, next, server, done - HrefsIn(failed + [next.listed.href]));
    } else {
      StillSynced(calendars, objects, after, next, server, done - HrefsIn(failed));
    }
  }

  function HrefsIn(failed: seq<Href>): set<Href> {
    set h | h in failed
  }

  /** What one calendar adds to a run's calls: none when it is skipped. */
  ghost predicate IsStep(
    calls: seq<Call>, calendar: StoredCalendar, before: seq<Href>, after: seq<Href>, offline: bool)
  {
    && Opened(calls) == (if IsSkipped(calendar) then [] else [calendar.listed.href])
    && after == before + Failures(calls) && (offline <==> EndsOffline(calls))
    && AreForCalendars(calls) && forall k :: 0 <= k < |calls| - 1 ==> !IsOffline(calls[k])
  }

  lemma {:induction false} StepOf(
    calls: seq<Call>, calendar: StoredCalendar, byVersions: bool, stored: map<Href, Option<string>>,
    r: Answer<Counts>, before: seq<Href>)
    requires !IsSkipped(calendar) && calls != []
    requires AreCallsFor(calls, calendar.listed.href, calendar.completedLoaded, byVersions, stored)
    requires OfflineOf(r) == FailureOf(calls[|calls| - 1])
    requires r.Data? ==> (r.data.incomplete <==> Omits(calls[|calls| - 1]))
    ensures var after := if r.Failed? || r.data.incomplete then before + [calendar.listed.href] else before;
      IsStep(calls, calendar, before, after, r.Failed? && r.offline)
  {
    hide Omits, AreCallsFor, Opened, Failures, FailureOf;
    CallsForOne(calls, calendar.listed.href, calendar.completedLoaded, byVersions, stored);
    NoOmission(calls[|calls| - 1]);
    assert before + [] == before;
  }

  lemma {:induction false} NoOmission(call: Call)
    ensures FailureOf(call).Some? ==> !Omits(call)
  {
  }

  /** A run that goes on after `i` calendars of the listing. */
  ghost predicate RunSoFar(calls: seq<Call>, next: seq<StoredCalendar>, i: nat, failed: seq<Href>) {
    && i <= |next| && failed == Failures(calls) && Opened(calls) == Moved(next[..i])
    && AreForCalendars(calls) && forall k :: 0 <= k < |calls| ==> !IsOffline(calls[k])
  }

  lemma {:induction false} RunEnds(calls: seq<Call>, next: seq<StoredCalendar>, failed: seq<Href>)
    requires RunSoFar(calls, next, |next|, failed)
    ensures IsRun(calls, next, failed)
  {
    assert next[..|next|] == next;
  }

  lemma {:induction false} RunGrows(
    calls: seq<Call>, more: seq<Call>, next: seq<StoredCalendar>, i: nat, before: seq<Href>, after: seq<Href>,
    offline: bool)
    requires i < |next| && RunSoFar(calls, next, i, before) && IsStep(more, next[i], before, after, offline)
    ensures offline ==> IsRun(calls + more, next, after) && EndsOffline(calls + more)
    ensures !offline ==> RunSoFar(calls + more, next, i + 1, after)
  {
    hide IsOffline, IsSkipped, Moved, Opened, Failures;
    CallsAppend(calls, more);
    OneMoved(next, i);
    var all := calls + more;
    assert forall k :: 0 <= k < |calls| ==> all[k] == calls[k];
    assert forall k :: |calls| <= k < |all| ==> all[k] == more[k - |calls|];
  }

  class CalDavSync {
    const transport: Transport
    const store: CalDavCache

    constructor (transport: Transport, store: CalDavCache)
      ensures this.transport == transport && this.store == store
    {
      this.transport, this.store := transport, store;
    }

    /** What the store says now is honest. */
    ghost predicate Keeps()
      reads this, transport, store
    {
      Lawful(transport.w) && Invariant(store.calendars, store.objects, transport.w, transport.now)
    }

    /** Midway through a refresh: every record of the listing is honest and agrees with what is stored. */
    ghost predicate InProgress(next: seq<StoredCalendar>, before: Calendars, server: Server)
      reads this, transport, store
    {
      && Keeps() && store.calendars.Keys == server.Keys
      && AreHonest(next, store.objects, transport.w, transport.now)
      && (forall h :: h in store.calendars ==> Agrees(store.calendars[h], before, server[h]))
    }

    /** The difference was written once: what came was put, and what is no longer listed was dropped. */
    ghost predicate IsWritten(counts: Counts, change: Change, calls: seq<Call>, objects: Objects, changes: seq<Change>)
      reads this, store
    {
      var c := change.record.listed.href;
      && calls != [] && store.changes == changes + [change]
      && counts.written == |change.upsert| && counts.removed == |change.remove|
      && Came(change.upsert, calls, StoredVersions(objects, c))
      && change.remove == Removed(objects, c, ListedBy(calls[0]))
      && store.objects == ApplyTo(objects, c, change.upsert, change.remove)
    }

    /** One synchronisation fails exactly when its last call does, and otherwise writes what came. */
    ghost predicate IsAnswered(
      r: Answer<Counts>, calls: seq<Call>, calendar: StoredCalendar, completed: bool, calendars: Calendars,
      objects: Objects, changes: seq<Change>)
      reads this, transport, store
    {
      var c := calendar.listed.href;
      && AreCallsFor(calls, c, completed, transport.listsVersions, StoredVersions(objects, c)) && calls != []
      && OfflineOf(r) == FailureOf(calls[|calls| - 1])
      && match r
         case Failed(_) => store.calendars == calendars && store.objects == objects && store.changes == changes
         case Data(counts) =>
           && (counts.incomplete <==> Omits(calls[|calls| - 1]))
           && store.changes != [] && IsWritten(counts, store.changes[|store.changes| - 1], calls, objects, changes)
           && store.changes[|store.changes| - 1].record == RecordAfter(calendar, completed, counts.incomplete)
           && store.calendars == calendars[c := RecordAfter(calendar, completed, counts.incomplete)]
    }

    /** What a fetch gives follows from its calls; it fails exactly when the last of them does. */
    ghost predicate IsFetch(
      r: Answer<Fetched>, calls: seq<Call>, c: Href, completed: bool, stored: map<Href, Option<string>>, start: nat)
      reads this, transport
    {
      && AreCallsFor(calls, c, completed, transport.listsVersions, stored) && calls != []
      && OfflineOf(r) == FailureOf(calls[|calls| - 1])
      && (r.Data? ==>
           && r.data.versions == ListedBy(calls[0]) && Came(r.data.upsert, calls, stored)
           && (r.data.incomplete <==> Omits(calls[|calls| - 1]))
           && (r.data.incomplete <==> !IsComplete(stored, r.data.versions, r.data.upsert))
           && IsFetched(transport.w, c, completed, r.data.versions, r.data.upsert, start, r.data.listedAt,
                transport.now))
    }

    /** The listing, and the changed objects by the calls for etags and for objects. */
    method FetchStale(c: Href, completed: bool, stored: map<Href, Option<string>>)
      returns (r: Answer<Fetched>, ghost calls: seq<Call>)
      requires transport.listsVersions
      modifies transport
      ensures transport.now >= old(transport.now) && transport.log == old(transport.log) + calls
      ensures IsFetch(r, calls, c, completed, stored, old(transport.now))
    {
      hide TruthfulObjects, TruthfulVersions, IsComplete, IsStale, WantedHrefs;
      var listed := transport.ListVersions(c, completed);
      calls := [VersionsCall(c, completed, listed)];
      if listed.Failed? {
        return Failed(listed.offline), calls;
      }
      ghost var listedAt := transport.now;
      var wanted := WantedHrefs(stored, listed.data);
      WantedAreStale(stored, listed.data);
      NothingWanted(transport.w, c, listedAt);
      var upsert: seq<SyncObject> := [];
      var incomplete := false;
      if |wanted| > 0 {
        var fetched := transport.GetObjects(c, wanted);
        calls := calls + [ObjectsCall(c, wanted, fetched)];
        if fetched.Failed? {
          return Failed(fetched.offline), calls;
        }
        upsert := fetched.data;
        var came := ObjectHrefs(upsert);
        incomplete := exists h :: h in wanted && h !in came;
      }
      CameIsComplete(stored, listed.data, upsert);
      r := Data(Fetched(listed.data, upsert, incomplete, listedAt));
    }

    /** The listing with every object, and those of them that changed. */
    method FetchListing(c: Href, completed: bool, stored: map<Href, Option<string>>)
      returns (r: Answer<Fetched>, ghost calls: seq<Call>)
      requires !transport.listsVersions
      modifies transport
      ensures transport.now >= old(transport.now) && transport.log == old(transport.log) + calls
      ensures IsFetch(r, calls, c, completed, stored, old(transport.now))
    {
      hide TruthfulVersions, IsStale, ChangedObjects, IsFilterOf, HasStale;
      var listed := transport.ListObjects(c, completed);
      calls := [ListingCall(c, completed, listed)];
      if listed.Failed? {
        return Failed(listed.offline), calls;
      }
      var upsert := ChangedObjects(stored, listed.data);
      ChangedAre(stored, listed.data);
      ChangedIsFilter(stored, listed.data);
      var versions := VersionsOf(listed.data);
      forall v | v in versions && !IsCurrent(stored, v)
        ensures v.href in ObjectHrefs(upsert)
      {
        var i :| 0 <= i < |versions| && versions[i] == v;
        assert listed.data[i] in upsert;
      }
      r := Data(Fetched(versions, upsert, false, transport.now));
    }

    /** The listing and the changed objects, by whichever calls the transport has. */
    method Fetch(c: Href, completed: bool, stored: map<Href, Option<string>>)
      returns (r: Answer<Fetched>, ghost calls: seq<Call>)
      modifies transport
      ensures transport.now >= old(transport.now) && transport.log == old(transport.log) + calls
      ensures IsFetch(r, calls, c, completed, stored, old(transport.now))
    {
      if transport.listsVersions {
        r, calls := FetchStale(c, completed, stored);
      } else {
        r, calls := FetchListing(c, completed, stored);
      }
    }

    /**
     * Fetches one calendar and writes the difference. `others` are records of any calendars the
     * caller still relies on.
     */
    method SyncObjects(calendar: StoredCalendar, completed: bool, ghost others: seq<StoredCalendar>)
      returns (r: Answer<Counts>, ghost calls: seq<Call>)
      requires Keeps() && calendar.listed.href in store.calendars
      requires IsHonest(calendar, store.objects, transport.w, transport.now)
      requires calendar.completedLoaded ==> completed
      requires AreHonest(others, store.objects, transport.w, transport.now)
      requires forall s :: s in others && s.listed.href == calendar.listed.href && s.completedLoaded ==> completed
      modifies transport, store
      ensures transport.now >= old(transport.now) && Keeps() && transport.log == old(transport.log) + calls
      ensures IsAnswered(r, calls, calendar, completed, old(store.calendars), old(store.objects), old(store.changes))
      ensures AreHonest(others, store.objects, transport.w, transport.now)
      ensures r.Data? ==> IsInStepAfter(store.objects, transport.w, calendar.listed.href, completed,
                                        r.data.incomplete, old(transport.now), transport.now)
      ensures KeepsOthersInStep(old(store.objects), store.objects, calendar.listed.href,
                                transport.w.history(transport.now))
    {
      hide IsHonest, AreHonest, IsInStepAfter, InStep, AreCached, ApplyTo, AreCallsFor, Came, Omits, IsComplete;
      hide KeepsOthersInStep, StoredVersions, Lawful, Invariant, IsFetched;
      ghost var start, calendars, objects := transport.now, store.calendars, store.objects;
      var c := calendar.listed.href;
      var stored := StoredVersions(store.objects, c);
      var fetched;
      fetched, calls := Fetch(c, completed, stored);
      if fetched.Failed? {
        StaysHonest(store, transport.w, start, transport.now);
        AreHonestLater(others, objects, transport.w, start, transport.now);
        KeepsItself(objects, c, transport.w.history(transport.now));
        return Failed(fetched.offline), calls;
      }
      var Fetched(versions, upsert, incomplete, listedAt) := fetched.data;
      var remove := stored.Keys - VersionHrefs(versions);
      FetchIsWritten(
        calendars, objects, transport.w, calendar, completed, others, versions, upsert, start, listedAt, transport.now);
      store.ApplyChanges(RecordAfter(calendar, completed, incomplete), upsert, remove);
      r := Data(Counts(|upsert|, |remove|, incomplete));
    }

    /** An unanswered run writes nothing; an answered one is that of its calls, and its counts are its writes. */
    ghost predicate IsReported(
      outcome: SyncOutcome, calls: seq<Call>, before: Calendars, objects: Objects, changes: seq<Change>)
      reads this, store
    {
      && calls != [] && calls[0].CalendarsCall?
      && match calls[0].calendars
         case Failed(_) =>
           && outcome == SyncOutcome(false, [], 0, 0) && |calls| == 1
           && store.calendars == before && store.objects == objects && store.changes == changes
         case Data(listed) =>
           var next := NextRecords(before, listed);
           && outcome.answered && IsRun(calls[1..], next, outcome.failed)
           && IsCounted(outcome, store.objects, store.changes,
                WithoutCalendars(objects, before.Keys - CalendarHrefs(next)), changes)
    }

    /** Every calendar that did not fail is in step, unless the run stopped for want of an answer. */
    ghost predicate IsBroughtInStep(outcome: SyncOutcome, calls: seq<Call>, server: Server)
      reads this, store
    {
      outcome.answered && !EndsOffline(calls) ==>
        store.calendars.Keys == server.Keys
        && forall c :: c in server && c !in outcome.failed ==> IsSynced(store.calendars, store.objects, c, server[c])
    }

    /** `run`: the calendar list, then every calendar whose marker moved. */
    method Refresh() returns (outcome: SyncOutcome, ghost calls: seq<Call>)
      requires Keeps()
      modifies transport, store
      ensures transport.now >= old(transport.now) && Keeps() && transport.log == old(transport.log) + calls
      ensures IsReported(outcome, calls, old(store.calendars), old(store.objects), old(store.changes))
      ensures Unchanged(transport.w, old(transport.now), transport.now) ==>
        IsBroughtInStep(outcome, calls, transport.w.history(transport.now))
      ensures outcome.answered && outcome.failed == [] && Unchanged(transport.w, old(transport.now), transport.now) ==>
        AllInStep(store.calendars, store.objects, transport.w.history(transport.now))
      ensures
        (outcome.answered && Unchanged(transport.w, old(transport.now), transport.now) &&
         IsSettled(old(store.calendars), transport.w.history(transport.now))) ==>
        outcome == SyncOutcome(true, [], 0, 0) && store.objects == old(store.objects)
    {
      hide IsHonest, Invariant, Lawful, OnCourse, IsRun, IsCounted, InProgress, AreListed, IsSettled, EndsOffline;
      hide NextRecords, WithoutCalendars, TruthfulCalendars, IsSkipped, CalendarHrefs, IsSynced, AllInStep;
      outcome := SyncOutcome(false, [], 0, 0);
      var listed := transport.ListCalendars();
      calls := [CalendarsCall(listed)];
      StaysHonest(store, transport.w, old(transport.now), transport.now);
      if listed.Failed? {
        return;
      }
      ghost var server, start := transport.w.history(transport.now), transport.now;
      var next := StoreListing(listed.data);
      ghost var objects, changes, more := store.objects, store.changes, [];
      outcome, more := SyncAll(next, old(store.calendars), start, server);
      calls := calls + more;
      assert calls[1..] == more;
      EndOfRun(outcome, calls[0], more, next, old(store.calendars), start, server, objects, changes);
      if Unchanged(transport.w, old(transport.now), transport.now) {
        UnchangedHalves(transport.w, old(transport.now), start, transport.now);
      }
    }

    /** What the end of the loop says of the whole run. */
    lemma EndOfRun(
      outcome: SyncOutcome, listing: Call, calls: seq<Call>, next: seq<StoredCalendar>, before: Calendars, start: nat,
      server: Server, objects: Objects, changes: seq<Change>)
      requires outcome.answered && IsRun(calls, next, outcome.failed) && FailureOf(listing).None?
      requires exists done ::
        && OnCourse(outcome, next, before, start, server, done, objects, changes)
        && (done == server.Keys || EndsOffline(calls))
      ensures Keeps() && start <= transport.now && IsCounted(outcome, store.objects, store.changes, objects, changes)
      ensures Unchanged(transport.w, start, transport.now) ==>
        IsBroughtInStep(outcome, [listing] + calls, transport.w.history(transport.now))
      ensures Unchanged(transport.w, start, transport.now) && outcome.failed == [] ==>
        AllInStep(store.calendars, store.objects, transport.w.history(transport.now))
    {
      hide IsHonest, Invariant, Lawful, IsSynced, Agrees;
      OfflineInFailures(calls);
      EndOfBoth(listing, calls);
    }

    /** Time passes. */
    lemma StaysHonest(store: CalDavCache, w: World, start: nat, now: nat)
      requires Lawful(w) && Invariant(store.calendars, store.objects, w, start) && start <= now
      ensures Invariant(store.calendars, store.objects, w, now)
    {
      InvariantLater(store.calendars, store.objects, w, start, now);
    }

    /** The listing becomes the stored calendars, each with its old progress. */
    method StoreListing(listed: seq<Calendar>) returns (next: seq<StoredCalendar>)
      requires Keeps() && TruthfulCalendars(listed, transport.w.history(transport.now))
      modifies store`calendars, store`objects
      ensures next == NextRecords(old(store.calendars), listed)
      ensures store.objects == WithoutCalendars(old(store.objects), old(store.calendars).Keys - CalendarHrefs(next))
      ensures var server := transport.w.history(transport.now);
        && InProgress(next, old(store.calendars), server) && server.Keys == CalendarHrefs(next)
        && AreListed(next, old(store.calendars), server)
        && (IsSettled(old(store.calendars), server) ==>
             store.objects == old(store.objects) && forall s :: s in next ==> IsSkipped(s))
    {
      hide IsHonest, InStep, AreCached, KeyedBy, Lawful, WithoutCalendars;
      var before := store.calendars;
      ghost var objects, server := store.objects, transport.w.history(transport.now);
      next := NextRecords(before, listed);
      ReplacedKeepsInvariant(before, objects, transport.w, transport.now, transport.now, listed);
      RecordsAgree(before, listed, server);
      NextHrefs(before, listed, server);
      if IsSettled(before, server) {
        SettledIsSkipped(before, objects, listed, server);
      }
      store.ReplaceCalendars(next);
    }

    /** The records of the listing, as they were made from it. */
    static ghost predicate AreListed(next: seq<StoredCalendar>, before: Calendars, server: Server) {
      forall s :: s in next ==>
        && s.listed.href in server && Agrees(s, before, server[s.listed.href])
        && s.syncedMarker == SyncedBefore(before, s.listed.href)
    }

    /** How a refresh stands: honest, counted, and in step with the calendars done but for those that failed. */
    ghost predicate OnCourse(
      outcome: SyncOutcome, next: seq<StoredCalendar>, before: Calendars, start: nat, server: Server, done: set<Href>,
      objects: Objects, changes: seq<Change>)
      reads this, transport, store
    {
      && InProgress(next, before, server) && AreListed(next, before, server)
      && start <= transport.now && done <= server.Keys
      && (Unchanged(transport.w, start, transport.now) ==> transport.w.history(transport.now) == server)
      && (Unchanged(transport.w, start, transport.now) ==> AreSynced(store.calendars, store.objects, done - HrefsIn(outcome.failed), server))
      && IsCounted(outcome, store.objects, store.changes, objects, changes)
    }

    /** The loop of `run` over the calendars just stored. */
    method SyncAll(next: seq<StoredCalendar>, ghost before: Calendars, ghost start: nat, ghost server: Server)
      returns (outcome: SyncOutcome, ghost calls: seq<Call>)
      requires InProgress(next, before, server) && AreListed(next, before, server) && start <= transport.now
      requires server == transport.w.history(transport.now) && server.Keys == CalendarHrefs(next)
      modifies transport, store
      ensures transport.now >= old(transport.now) && outcome.answered
      ensures transport.log == old(transport.log) + calls && IsRun(calls, next, outcome.failed)
      ensures exists done ::
        && OnCourse(outcome, next, before, start, server, done, old(store.objects), old(store.changes))
        && (done == server.Keys || EndsOffline(calls))
      ensures (forall s :: s in next ==> IsSkipped(s)) ==>
        outcome == SyncOutcome(true, [], 0, 0) && store.objects == old(store.objects)
    {
      hide OnCourse, RunSoFar, IsRun, IsSkipped, IsStep, EndsOffline;
      StartOfRun(next, before, start, server);
      ghost var listedAt, objects, changes := transport.now, store.objects, store.changes;
      outcome, calls := SyncOutcome(true, [], 0, 0), [];
      ghost var done: set<Href> := {};
      var i := 0;
      while i < |next|
        invariant 0 <= i <= |next| && done == CalendarHrefs(next[..i])
        invariant transport.now >= listedAt && outcome.answered && transport.log == old(transport.log) + calls
        invariant RunSoFar(calls, next, i, outcome.failed)
        invariant OnCourse(outcome, next, before, start, server, done, objects, changes)
        invariant (forall s :: s in next ==> IsSkipped(s)) ==>
          outcome == SyncOutcome(true, [], 0, 0) && store.objects == objects
      {
        var calendar := next[i];
        OneMoreHref(next, i);
        var offline;
        ghost var failed, earlier, more := outcome.failed, calls, [];
        outcome, offline, more :=
          SyncIfChanged(calendar, outcome, next, before, start, server, done, objects, changes);
        RunGrows(earlier, more, next, i, failed, outcome.failed, offline);
        calls := calls + more;
        done := done + {calendar.listed.href};
        if offline {
          return;
        }
        i := i + 1;
      }
      assert next[..|next|] == next;
      RunEnds(calls, next, outcome.failed);
    }

    lemma StartOfRun(next: seq<StoredCalendar>, before: Calendars, start: nat, server: Server)
      requires InProgress(next, before, server) && AreListed(next, before, server) && start <= transport.now
      requires server == transport.w.history(transport.now)
      ensures OnCourse(SyncOutcome(true, [], 0, 0), next, before, start, server, {}, store.objects, store.changes)
      ensures RunSoFar([], next, 0, []) && next[..0] == []
    {
      hide InProgress, AreListed;
      NothingCounted(store.objects);
      assert store.changes[|store.changes|..] == [];
    }

    /** One calendar of a refresh: skipped, or synchronised; true when the run must stop. */
    method SyncIfChanged(
      calendar: StoredCalendar, outcome: SyncOutcome, ghost next: seq<StoredCalendar>, ghost before: Calendars,
      ghost start: nat, ghost server: Server, ghost done: set<Href>, ghost objects: Objects,
      ghost changes: seq<Change>) returns (after: SyncOutcome, offline: bool, ghost calls: seq<Call>)
      requires calendar in next && OnCourse(outcome, next, before, start, server, done, objects, changes)
      modifies transport, store
      ensures transport.now >= old(transport.now) && after.answered == outcome.answered
      ensures transport.log == old(transport.log) + calls
      ensures IsStep(calls, calendar, outcome.failed, after.failed, offline)
      ensures OnCourse(after, next, before, start, server, done + {calendar.listed.href}, objects, changes)
      ensures IsSkipped(calendar) ==> after == outcome && store.objects == old(store.objects)
    {
      if IsSkipped(calendar) {
        hide IsHonest, InStep, Agrees, Written, TotalPut, TotalDropped;
        NothingCounted(objects);
        if Unchanged(transport.w, start, transport.now) {
          SkippedIsSynced(store.calendars, store.objects, transport.w, transport.now, before, calendar);
        }
        after, offline, calls := outcome, false, [];
      } else {
        after, offline, calls := SyncChanged(calendar, outcome, next, before, start, server, done, objects, changes);
      }
    }

    /** One changed calendar of a refresh, and its line in the outcome; true when the run must stop. */
    method SyncChanged(
      calendar: StoredCalendar, outcome: SyncOutcome, ghost next: seq<StoredCalendar>, ghost before: Calendars,
      ghost start: nat, ghost server: Server, ghost done: set<Href>, ghost objects: Objects,
      ghost changes: seq<Change>) returns (after: SyncOutcome, offline: bool, ghost calls: seq<Call>)
      requires !IsSkipped(calendar)
      requires calendar in next && OnCourse(outcome, next, before, start, server, done, objects, changes)
      modifies transport, store
      ensures transport.now >= old(transport.now) && after.answered == outcome.answered
      ensures transport.log == old(transport.log) + calls
      ensures IsStep(calls, calendar, outcome.failed, after.failed, offline)
      ensures OnCourse(after, next, before, start, server, done + {calendar.listed.href}, objects, changes)
    {
      hide OnCourse, IsStep, IsHonest, AreHonest, AreCallsFor, Omits, Keeps, StoredVersions, IsWritten;
      hide KeepsOthersInStep, IsInStepAfter, Unchanged, FailureOf, IsSkipped, RecordAfter;
      ghost var calendars, was, writes := store.calendars, store.objects, store.changes;
      ghost var began := transport.now;
      CourseSo(calendar, outcome, next, before, start, server, done, objects, changes);
      var result;
      result, calls := SyncObjects(calendar, calendar.completedLoaded, next);
      StepOf(calls, calendar, transport.listsVersions, StoredVersions(was, calendar.listed.href), result, outcome.failed);
      offline := result.Failed? && result.offline;
      match result
      case Data(counts) =>
        after := outcome.(
          written := outcome.written + counts.written,
          removed := outcome.removed + counts.removed,
          failed := if counts.incomplete then outcome.failed + [calendar.listed.href] else outcome.failed);
        WrittenOnCourse(calendar, counts, calls, outcome, after, next, before, start, server, done, objects, changes,
          calendars, was, writes, began);
      case Failed(_) =>
        after := outcome.(failed := outcome.failed + [calendar.listed.href]);
        FailedOnCourse(calendar, outcome, after, next, before, start, server, done, objects, changes, began);
    }

    /** The course at one moment of a run. */
    ghost predicate WasOnCourse(
      outcome: SyncOutcome, next: seq<StoredCalendar>, before: Calendars, start: nat, server: Server, done: set<Href>,
      objects: Objects, changes: seq<Change>, calendars: Calendars, was: Objects, writes: seq<Change>, began: nat)
      reads this, transport
    {
      && calendars.Keys == server.Keys && (forall h :: h in calendars ==> Agrees(calendars[h], before, server[h]))
      && AreListed(next, before, server) && start <= began && done <= server.Keys
      && (Unchanged(transport.w, start, began) ==>
           transport.w.history(began) == server && AreSynced(calendars, was, done - HrefsIn(outcome.failed), server))
      && IsCounted(outcome, was, writes, objects, changes)
    }

    lemma CourseSo(
      calendar: StoredCalendar, outcome: SyncOutcome, next: seq<StoredCalendar>, before: Calendars, start: nat,
      server: Server, done: set<Href>, objects: Objects, changes: seq<Change>)
      requires calendar in next && OnCourse(outcome, next, before, start, server, done, objects, changes)
      ensures Keeps() && calendar.listed.href in store.calendars
      ensures IsHonest(calendar, store.objects, transport.w, transport.now)
      ensures AreHonest(next, store.objects, transport.w, transport.now)
      ensures forall s :: s in next && s.listed.href == calendar.listed.href && s.completedLoaded ==> calendar.completedLoaded
      ensures WasOnCourse(outcome, next, before, start, server, done, objects, changes,
        store.calendars, store.objects, store.changes, transport.now)
    {
      hide IsHonest, IsCounted, AreSynced, Invariant, Lawful;
      OneIsHonest(next, store.objects, transport.w, transport.now, calendar);
    }

    lemma WrittenOnCourse(
      calendar: StoredCalendar, counts: Counts, calls: seq<Call>, outcome: SyncOutcome, after: SyncOutcome,
      next: seq<StoredCalendar>, before: Calendars, start: nat, server: Server, done: set<Href>, objects: Objects,
      changes: seq<Change>, calendars: Calendars, was: Objects, writes: seq<Change>, began: nat)
      requires calendar in next && Keeps() && AreHonest(next, store.objects, transport.w, transport.now)
      requires WasOnCourse(outcome, next, before, start, server, done, objects, changes, calendars, was, writes, began)
      requires began <= transport.now
      requires IsAnswered(Data(counts), calls, calendar, calendar.completedLoaded, calendars, was, writes)
      requires KeepsOthersInStep(was, store.objects, calendar.listed.href, transport.w.history(transport.now))
      requires IsInStepAfter(store.objects, transport.w, calendar.listed.href, calendar.completedLoaded,
        counts.incomplete, began, transport.now)
      requires after.written == outcome.written + counts.written && after.removed == outcome.removed + counts.removed
      requires after.failed == if counts.incomplete then outcome.failed + [calendar.listed.href] else outcome.failed
      ensures OnCourse(after, next, before, start, server, done + {calendar.listed.href}, objects, changes)
    {
      hide IsHonest, AreHonest, InStep, IsCounted, AreSynced, AreCallsFor, Omits, Invariant, Lawful, StoredVersions;
      hide KeepsOthersInStep, Came, Removed, ApplyTo, FailureOf;
      ghost var w, record := transport.w, RecordAfter(calendar, calendar.completedLoaded, counts.incomplete);
      CountsGrow(outcome, after, was, writes, objects, changes, store.changes[|writes|]);
      StillAgree(calendars, record, before, server);
      if Unchanged(w, start, transport.now) {
        UnchangedHalves(w, start, began, transport.now);
        SyncedAfter(calendars, was, store.objects, record, counts.incomplete, server, done, outcome.failed);
      }
    }

    lemma FailedOnCourse(
      calendar: StoredCalendar, outcome: SyncOutcome, after: SyncOutcome, next: seq<StoredCalendar>, before: Calendars,
      start: nat, server: Server, done: set<Href>, objects: Objects, changes: seq<Change>, began: nat)
      requires calendar in next && Keeps() && AreHonest(next, store.objects, transport.w, transport.now)
      requires WasOnCourse(outcome, next, before, start, server, done, objects, changes,
        store.calendars, store.objects, store.changes, began)
      requires began <= transport.now && after == outcome.(failed := outcome.failed + [calendar.listed.href])
      ensures OnCourse(after, next, before, start, server, done + {calendar.listed.href}, objects, changes)
    {
      hide IsHonest, AreHonest, IsCounted, AreSynced, Invariant, Lawful;
      FailureIsNotCounted(outcome, after.failed, store.objects, store.changes, objects, changes);
      if Unchanged(transport.w, start, transport.now) {
        UnchangedHalves(transport.w, start, began, transport.now);
        FailedIsLeftOut(store.calendars, store.objects, calendar.listed.href, server, done, outcome.failed);
      }
    }

    /** `loadCompleted`: one calendar with its completed tasks. */
    method LoadCompleted(href: Href) returns (loaded: bool, ghost calls: seq<Call>)
      requires Keeps()
      modifies transport, store
      ensures transport.now >= old(transport.now) && Keeps() && transport.log == old(transport.log) + calls
      ensures loaded <==> href in old(store.calendars) && Failures(calls) == []
      ensures href in old(store.calendars) ==> Opened(calls) == [href]
      ensures href !in old(store.calendars) ==>
        !loaded && store.calendars == old(store.calendars) && store.objects == old(store.objects)
      ensures loaded ==> href in store.calendars && store.calendars[href].completedLoaded
      ensures loaded && Unchanged(transport.w, old(transport.now), transport.now) ==>
        href in transport.w.history(transport.now) &&
        InStep(store.objects, href, transport.w.history(transport.now)[href], true)
    {
      if href !in store.calendars {
        return false, [];
      }
      var result;
      ghost var was := store.objects;
      result, calls := SyncObjects(store.calendars[href], true, []);
      CallsForOne(calls, href, true, transport.listsVersions, StoredVersions(was, href));
      loaded := result.Data? && !result.data.incomplete;
    }
  }

  /**
   * Any run: refreshes and loads, one after another, over a server other devices change at any
   * instant. Whenever the run stands still, a calendar stored under the server's current marker is
   * in step with the server.
   */
  method AnyRun(transport: Transport, steps: nat) returns (sync: CalDavSync)
    requires Lawful(transport.w)
    modifies transport
    ensures sync.transport == transport && fresh(sync.store) && sync.Keeps()
    ensures forall c | c in sync.store.calendars && sync.store.calendars[c].syncedMarker.Some? &&
                       HasMarker(transport.w, transport.now, c, sync.store.calendars[c].syncedMarker.value) ::
      InStep(sync.store.objects, c, transport.w.history(transport.now)[c], sync.store.calendars[c].completedLoaded)
  {
    var store := new CalDavCache();
    sync := new CalDavSync(transport, store);
    for i := 0 to steps
      invariant sync.transport == transport && sync.store == store && sync.Keeps()
    {
      var refresh, href := *, *;
      if refresh {
        var outcome, calls := sync.Refresh();
      } else {
        var loaded, calls := sync.LoadCompleted(href);
      }
    }
    ghost var before := transport.now;
    transport.Wait();
    InvariantLater(store.calendars, store.objects, transport.w, before, transport.now);
  }

  /**
   * A refresh answered by a server that does not change meanwhile, and where nothing failed, leaves
   * everything in step; when the server gives markers, the next refresh writes nothing.
   */
  method RefreshAgain(sync: CalDavSync) returns (first: SyncOutcome, second: SyncOutcome)
    requires sync.Keeps()
    modifies sync.transport, sync.store
    ensures var w := sync.transport.w;
      var server := w.history(sync.transport.now);
      Unchanged(w, old(sync.transport.now), sync.transport.now) && first.answered && first.failed == [] &&
      (forall c :: c in server ==> server[c].marker.Some?) && second.answered ==>
        second == SyncOutcome(true, [], 0, 0) && AllInStep(sync.store.calendars, sync.store.objects, server)
  {
    ghost var w, start := sync.transport.w, sync.transport.now;
    ghost var calls;
    first, calls := sync.Refresh();
    ghost var middle := sync.transport.now;
    second, calls := sync.Refresh();
    if Unchanged(w, start, sync.transport.now) {
      assert w.history(middle) == w.history(sync.transport.now);
      assert Unchanged(w, start, middle) && Unchanged(w, middle, sync.transport.now);
    }
  }
}
