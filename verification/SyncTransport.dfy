/**
 * The transport port of `caldav/sync.ts` over a server that other devices change at any time. Each
 * call takes some time, and then fails or gives any answer that is true at that instant.
 */
module SyncTransport {
  import opened Wrappers
  import opened SyncModel
  import opened SyncCalls

  class Transport {
    const w: World
    /** Whether the transport has the optional pair that lists only etags. */
    const listsVersions: bool
    var now: nat
    ghost var log: seq<Call>

    constructor (w: World, listsVersions: bool)
      ensures this.w == w && this.listsVersions == listsVersions && now == 0 && log == []
    {
      this.w, this.listsVersions, now, log := w, listsVersions, 0, [];
    }

    method Wait()
      modifies this`now
      ensures now >= old(now)
    {
      var time: int := *;
      if time > 0 {
        now := now + time;
      }
    }

    method ListCalendars() returns (r: Answer<seq<Calendar>>)
      modifies this
      ensures now >= old(now) && log == old(log) + [CalendarsCall(r)]
      ensures r.Data? ==> TruthfulCalendars(r.data, w.history(now))
    {
      Wait();
      var data: seq<Calendar>, offline: bool := *, *;
      r := if TruthfulCalendars(data, w.history(now)) then Data(data) else Failed(offline);
      log := log + [CalendarsCall(r)];
    }

    method ListVersions(c: Href, completed: bool) returns (r: Answer<seq<Version>>)
      modifies this
      ensures now >= old(now) && log == old(log) + [VersionsCall(c, completed, r)]
      ensures r.Data? ==>
        At(w, now, c).Some? && TruthfulVersions(r.data, At(w, now, c).value.objects, completed)
    {
      Wait();
      var data: seq<Version>, offline: bool := *, *;
      r := if At(w, now, c).Some? && TruthfulVersions(data, At(w, now, c).value.objects, completed) then Data(data)
           else Failed(offline);
      log := log + [VersionsCall(c, completed, r)];
    }

    /** Bodies of some objects: any the server chooses to send, asked for or not. */
    method GetObjects(c: Href, hrefs: seq<Href>) returns (r: Answer<seq<SyncObject>>)
      modifies this
      ensures now >= old(now) && log == old(log) + [ObjectsCall(c, hrefs, r)]
      ensures r.Data? ==> At(w, now, c).Some? && TruthfulObjects(r.data, At(w, now, c).value.objects)
    {
      Wait();
      var data: seq<SyncObject>, offline: bool := *, *;
      r := if At(w, now, c).Some? && TruthfulObjects(data, At(w, now, c).value.objects) then Data(data)
           else Failed(offline);
      log := log + [ObjectsCall(c, hrefs, r)];
    }

    method ListObjects(c: Href, completed: bool) returns (r: Answer<seq<SyncObject>>)
      modifies this
      ensures now >= old(now) && log == old(log) + [ListingCall(c, completed, r)]
      ensures r.Data? ==> At(w, now, c).Some? && TruthfulObjects(r.data, At(w, now, c).value.objects)
      ensures r.Data? ==> TruthfulVersions(VersionsOf(r.data), At(w, now, c).value.objects, completed)
    {
      Wait();
      var data: seq<SyncObject>, offline: bool := *, *;
      r := if At(w, now, c).Some? && TruthfulObjects(data, At(w, now, c).value.objects) &&
              TruthfulVersions(VersionsOf(data), At(w, now, c).value.objects, completed) then Data(data)
           else Failed(offline);
      log := log + [ListingCall(c, completed, r)];
    }
  }
}
