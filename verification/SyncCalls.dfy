/** What a run of `caldav/sync.ts` asked the transport and what it wrote, and how its outcome follows from that. */
module SyncCalls {
  import opened Wrappers
  import opened SyncModel

  /** One call to the transport, with its answer. */
  datatype Call =
    | CalendarsCall(calendars: Answer<seq<Calendar>>)
    | VersionsCall(calendar: Href, completed: bool, versions: Answer<seq<Version>>)
    | ObjectsCall(calendar: Href, hrefs: seq<Href>, came: Answer<seq<SyncObject>>)
    | ListingCall(calendar: Href, completed: bool, objects: Answer<seq<SyncObject>>)

  /** One write of a calendar's difference to the store. */
  datatype Change = Change(record: StoredCalendar, upsert: seq<SyncObject>, remove: set<Href>)

  // ---- How calls fail

  /** The failure of a call: whether there was no answer at all. */
  function FailureOf(call: Call): Option<bool> {
    match call
    case CalendarsCall(answer) => OfflineOf(answer)
    case VersionsCall(_, _, answer) => OfflineOf(answer)
    case ObjectsCall(_, _, answer) => OfflineOf(answer)
    case ListingCall(_, _, answer) => OfflineOf(answer)
  }

  function OfflineOf<T>(answer: Answer<T>): Option<bool> {
    if answer.Failed? then Some(answer.offline) else None
  }

  predicate IsOffline(call: Call) {
    FailureOf(call) == Some(true)
  }

  /** The answer leaves out an object that was asked for. */
  predicate Omits(call: Call) {
    call.ObjectsCall? && call.came.Data? && exists h :: h in call.hrefs && h !in ObjectHrefs(call.came.data)
  }

  /** The calendar whose contents a call asks for, and the one it fails. */
  function OpenedBy(call: Call): seq<Href> {
    if call.VersionsCall? || call.ListingCall? then [call.calendar] else []
  }

  function FailedBy(call: Call): seq<Href> {
    if !call.CalendarsCall? && (FailureOf(call).Some? || Omits(call)) then [call.calendar] else []
  }

  /** The calendars whose call failed, or whose answer left out an object, in order. */
  function Failures(calls: seq<Call>): seq<Href> {
    if calls == [] then []
    else
      var last := calls[|calls| - 1];
      Failures(calls[..|calls| - 1]) + FailedBy(last)
  }

  /** The calendars whose contents were asked for, in order. */
  function Opened(calls: seq<Call>): seq<Href> {
    if calls == [] then []
    else
      var last := calls[|calls| - 1];
      Opened(calls[..|calls| - 1]) + OpenedBy(last)
  }

  predicate AreForCalendars(calls: seq<Call>) {
    forall k :: 0 <= k < |calls| ==> !calls[k].CalendarsCall?
  }

  predicate EndsOffline(calls: seq<Call>) {
    calls != [] && IsOffline(calls[|calls| - 1])
  }

  // ---- The calls for one calendar

  /** A call that lists a calendar, and what it listed. */
  predicate Lists(call: Call, c: Href, completed: bool, byVersions: bool) {
    if byVersions then call.VersionsCall? && call.calendar == c && call.completed == completed
    else call.ListingCall? && call.calendar == c && call.completed == completed
  }

  function ListedBy(call: Call): (versions: seq<Version>) {
    match call
    case VersionsCall(_, _, Data(data)) => data
    case ListingCall(_, _, Data(data)) => VersionsOf(data)
    case _ => []
  }

  /** Exactly the addresses whose stored etag differs from the listed one. */
  ghost predicate AsksForStale(call: Call, c: Href, stored: map<Href, Option<string>>, versions: seq<Version>) {
    && call.ObjectsCall? && call.calendar == c
    && forall h :: h in call.hrefs <==> exists v :: v in versions && v.href == h && IsStale(stored, v)
  }

  predicate IsStale(stored: map<Href, Option<string>>, v: Version) {
    v.etag.None? || v.href !in stored || stored[v.href] != v.etag
  }

  predicate HasStale(stored: map<Href, Option<string>>, versions: seq<Version>) {
    exists v :: v in versions && IsStale(stored, v)
  }

  /**
   * The calendar is listed once; when only etags are listed and some are new, their objects are asked
   * for; a failed call is the last.
   */
  ghost predicate AreCallsFor(
    calls: seq<Call>, c: Href, completed: bool, byVersions: bool, stored: map<Href, Option<string>>)
  {
    && 1 <= |calls| <= 2 && Lists(calls[0], c, completed, byVersions)
    && (|calls| == 2 <==> byVersions && FailureOf(calls[0]).None? && HasStale(stored, ListedBy(calls[0])))
    && (|calls| == 2 ==> AsksForStale(calls[1], c, stored, ListedBy(calls[0])))
  }

  /** The objects that came: all that were sent when asked for, the stale ones of a full listing. */
  ghost predicate Came(upsert: seq<SyncObject>, calls: seq<Call>, stored: map<Href, Option<string>>) {
    if calls != [] && calls[0].ListingCall? then
      calls[0].objects.Data? && IsFilterOf(upsert, calls[0].objects.data, stored)
    else if |calls| == 2 then calls[1].ObjectsCall? && calls[1].came == Data(upsert)
    else upsert == []
  }

  /** The stale objects of a listing, each as often as it is listed. */
  ghost predicate IsFilterOf(upsert: seq<SyncObject>, listed: seq<SyncObject>, stored: map<Href, Option<string>>) {
    forall o :: multiset(upsert)[o] == if IsStale(stored, VersionOf(o)) then multiset(listed)[o] else 0
  }

  lemma {:induction false} StaleIsNotCurrent(stored: map<Href, Option<string>>, v: Version)
    ensures IsStale(stored, v) <==> !IsCurrent(stored, v)
  {
  }

  lemma {:induction false} ChangedIsFilter(stored: map<Href, Option<string>>, listed: seq<SyncObject>)
    ensures IsFilterOf(ChangedObjects(stored, listed), listed, stored)
  {
    hide IsCurrent, IsStale;
    if listed != [] {
      ChangedIsFilter(stored, listed[1..]);
      StaleIsNotCurrent(stored, VersionOf(listed[0]));
      assert listed == [listed[0]] + listed[1..];
    }
  }

  // ---- The writes

  function TotalPut(changes: seq<Change>): nat {
    if changes == [] then 0 else TotalPut(changes[..|changes| - 1]) + |changes[|changes| - 1].upsert|
  }

  function TotalDropped(changes: seq<Change>): nat {
    if changes == [] then 0 else TotalDropped(changes[..|changes| - 1]) + |changes[|changes| - 1].remove|
  }

  /** The objects after the writes, one after another. */
  function Written(objects: Objects, changes: seq<Change>): Objects {
    if changes == [] then objects
    else
      var last := changes[|changes| - 1];
      ApplyTo(Written(objects, changes[..|changes| - 1]), last.record.listed.href, last.upsert, last.remove)
  }

  lemma {:induction false} OneMoreChange(objects: Objects, changes: seq<Change>, change: Change)
    ensures TotalPut(changes + [change]) == TotalPut(changes) + |change.upsert|
    ensures TotalDropped(changes + [change]) == TotalDropped(changes) + |change.remove|
    ensures Written(objects, changes + [change]) ==
      ApplyTo(Written(objects, changes), change.record.listed.href, change.upsert, change.remove)
  {
    assert (changes + [change])[..|changes|] == changes;
  }

  // ---- The calls of a whole run

  /** The calendars of the listing whose marker moved, in order. */
  function Moved(next: seq<StoredCalendar>): seq<Href> {
    if next == [] then []
    else
      var last := next[|next| - 1];
      Moved(next[..|next| - 1]) + if IsSkipped(last) then [] else [last.listed.href]
  }

  /** The server's marker is there and is the one the stored objects came from. */
  predicate IsSkipped(calendar: StoredCalendar) {
    calendar.listed.changeMarker.Some? && calendar.listed.changeMarker == calendar.syncedMarker
  }

  /**
   * Every calendar whose marker moved was asked for, in the order of the listing, until a call went
   * without an answer; `failed` are those that failed or left something out.
   */
  predicate IsRun(calls: seq<Call>, next: seq<StoredCalendar>, failed: seq<Href>) {
    && failed == Failures(calls) && Opened(calls) <= Moved(next)
    && (EndsOffline(calls) || Opened(calls) == Moved(next)) && AreForCalendars(calls)
    && forall k :: 0 <= k < |calls| - 1 ==> !IsOffline(calls[k])
  }

  lemma {:induction false} OneMoreCall(calls: seq<Call>, last: Call)
    ensures Opened(calls + [last]) == Opened(calls) + OpenedBy(last)
    ensures Failures(calls + [last]) == Failures(calls) + FailedBy(last)
  {
    hide FailureOf, Omits;
    assert (calls + [last])[..|calls|] == calls;
  }

  lemma {:induction false} NoCalls()
    ensures Opened([]) == [] && Failures([]) == []
  {
  }

  lemma {:induction false} CallsAppend(a: seq<Call>, b: seq<Call>)
    ensures Failures(a + b) == Failures(a) + Failures(b) && Opened(a + b) == Opened(a) + Opened(b)
  {
    hide Failures, Opened, OpenedBy, FailedBy;
    if b == [] {
      NoCalls();
      assert a + b == a;
    } else {
      var n := |b| - 1;
      var front, last := b[..n], b[n];
      CallsAppend(a, front);
      OneMoreCall(a + front, last);
      OneMoreCall(front, last);
      assert a + b == (a + front) + [last] && b == front + [last];
    }
  }

  lemma {:induction false} OneMoved(next: seq<StoredCalendar>, i: nat)
    requires i < |next|
    ensures Moved(next[..i + 1]) == Moved(next[..i]) + if IsSkipped(next[i]) then [] else [next[i].listed.href]
    ensures Moved(next[..i + 1]) <= Moved(next)
    decreases |next| - i
  {
    hide IsSkipped;
    assert next[..i + 1][..i] == next[..i];
    if i + 1 < |next| {
      OneMoved(next, i + 1);
    } else {
      assert next[..i + 1] == next;
    }
  }

  /** What the calls for one calendar add to a run. */
  lemma {:induction false} CallsForOne(
    calls: seq<Call>, c: Href, completed: bool, byVersions: bool, stored: map<Href, Option<string>>)
    requires AreCallsFor(calls, c, completed, byVersions, stored)
    ensures calls != []
    ensures var last := calls[|calls| - 1];
      && Opened(calls) == [c] && Failures(calls) == (if FailureOf(last).Some? || Omits(last) then [c] else [])
      && AreForCalendars(calls) && forall k :: 0 <= k < |calls| - 1 ==> !IsOffline(calls[k])
  {
    hide AsksForStale, HasStale, Omits, Lists, Opened, Failures, FailureOf, ListedBy;
    OneCall(calls[0]);
    ListsOne(calls[0], c, completed, byVersions);
    NothingOmitted(calls[0]);
    if |calls| == 1 {
      assert calls == [calls[0]];
    } else {
      OneCall(calls[1]);
      CallsAppend([calls[0]], [calls[1]]);
      assert calls == [calls[0]] + [calls[1]];
      AsksOne(calls[1], c, stored, ListedBy(calls[0]));
    }
  }

  lemma {:induction false} ListsOne(call: Call, c: Href, completed: bool, byVersions: bool)
    requires Lists(call, c, completed, byVersions)
    ensures (call.VersionsCall? || call.ListingCall?) && call.calendar == c
  {
  }

  lemma {:induction false} AsksOne(call: Call, c: Href, stored: map<Href, Option<string>>, versions: seq<Version>)
    requires AsksForStale(call, c, stored, versions)
    ensures call.ObjectsCall? && call.calendar == c
  {
  }

  lemma {:induction false} NothingOmitted(call: Call)
    requires !call.ObjectsCall?
    ensures !Omits(call)
  {
  }

  lemma {:induction false} OneCall(call: Call)
    ensures Opened([call]) == OpenedBy(call) && Failures([call]) == FailedBy(call)
  {
    hide FailureOf, Omits;
    assert [call][..0] == [];
  }

  /** A run that stopped for want of an answer failed for that calendar. */
  lemma {:induction false} OfflineInFailures(calls: seq<Call>)
    ensures EndsOffline(calls) && AreForCalendars(calls) ==> Failures(calls) != []
  {
  }

  lemma {:induction false} AppendedOffline(calls: seq<Call>, more: seq<Call>)
    ensures EndsOffline(more) ==> EndsOffline(calls + more)
  {
  }
}
