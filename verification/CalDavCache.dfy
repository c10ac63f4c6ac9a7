/** `caldav/indexeddb.ts`: two keyed stores, written together. */
module IndexedDbCache {
  import opened Wrappers
  import opened SyncModel
  import opened SyncCalls

  /** The calendars put one after another under their addresses. */
  function KeyedBy(calendars: seq<StoredCalendar>): Calendars {
    if calendars == [] then map[]
    else
      var n := |calendars| - 1;
      KeyedBy(calendars[..n])[calendars[n].listed.href := calendars[n]]
  }

  function CalendarHrefs(calendars: seq<StoredCalendar>): set<Href> {
    set c | c in calendars :: c.listed.href
  }

  lemma {:induction false} KeyedByHrefs(calendars: seq<StoredCalendar>)
    ensures KeyedBy(calendars).Keys == CalendarHrefs(calendars)
    ensures forall h :: h in KeyedBy(calendars) ==>
      KeyedBy(calendars)[h] in calendars && KeyedBy(calendars)[h].listed.href == h
  {
    if calendars != [] {
      var n := |calendars| - 1;
      KeyedByHrefs(calendars[..n]);
      assert calendars == calendars[..n] + [calendars[n]];
    }
  }

  /** The objects of the calendars in `dropped`, taken out. */
  function WithoutCalendars(objects: Objects, dropped: set<Href>): Objects {
    map o | o in objects && objects[o].calendarHref !in dropped :: objects[o]
  }

  lemma WithoutOneMore(objects: Objects, dropped: set<Href>, href: Href)
    ensures WithoutCalendars(WithoutCalendars(objects, dropped), {href}) == WithoutCalendars(objects, dropped + {href})
  {
  }

  class CalDavCache {
    var calendars: Calendars
    var objects: Objects
    ghost var changes: seq<Change>

    constructor ()
      ensures calendars == map[] && objects == map[] && changes == []
    {
      calendars, objects, changes := map[], map[], [];
    }

    /** `getAllKeys` of the index on the calendar, each key deleted. */
    method DeleteObjectsOf(href: Href)
      modifies this`objects
      ensures objects == WithoutCalendars(old(objects), {href})
    {
      var keys := set o | o in objects && objects[o].calendarHref == href;
      while keys != {}
        invariant forall o :: o in keys ==> o in objects && objects[o].calendarHref == href
        invariant forall o :: o in objects ==> o in old(objects) && objects[o] == old(objects)[o]
        invariant forall o :: o in old(objects) ==>
          o in objects || old(objects)[o].calendarHref == href
        invariant forall o :: o in objects && objects[o].calendarHref == href ==> o in keys
        decreases |keys|
      {
        var key :| key in keys;
        keys := keys - {key};
        objects := objects - {key};
      }
    }

    /** Every calendar not in `keep` is deleted, its objects first. */
    method DropCalendars(keep: set<Href>)
      modifies this`calendars, this`objects
      ensures calendars.Keys == old(calendars).Keys * keep
      ensures objects == WithoutCalendars(old(objects), old(calendars).Keys - keep)
    {
      var gone := calendars.Keys - keep;
      ghost var dropped: set<Href> := {};
      while gone != {}
        invariant dropped + gone == old(calendars).Keys - keep && dropped !! gone
        invariant objects == WithoutCalendars(old(objects), dropped)
        invariant calendars.Keys == old(calendars).Keys - dropped
        decreases |gone|
      {
        var href :| href in gone;
        DeleteObjectsOf(href);
        WithoutOneMore(old(objects), dropped, href);
        calendars := calendars - {href};
        gone, dropped := gone - {href}, dropped + {href};
      }
      assert dropped == old(calendars).Keys - keep;
    }

    method PutCalendars(next: seq<StoredCalendar>)
      modifies this`calendars
      ensures calendars == old(calendars) + KeyedBy(next)
    {
      for i := 0 to |next|
        invariant calendars == old(calendars) + KeyedBy(next[..i])
      {
        calendars := calendars[next[i].listed.href := next[i]];
        assert next[..i + 1][..i] == next[..i];
      }
      assert next[..|next|] == next;
    }

    method ReplaceCalendars(next: seq<StoredCalendar>)
      modifies this`calendars, this`objects
      ensures calendars == KeyedBy(next)
      ensures objects == WithoutCalendars(old(objects), old(calendars).Keys - CalendarHrefs(next))
    {
      DropCalendars(CalendarHrefs(next));
      PutCalendars(next);
      KeyedByHrefs(next);
    }

    method ApplyChanges(calendar: StoredCalendar, upsert: seq<SyncObject>, remove: set<Href>)
      modifies this
      ensures calendars == old(calendars)[calendar.listed.href := calendar]
      ensures objects == ApplyTo(old(objects), calendar.listed.href, upsert, remove)
      ensures changes == old(changes) + [Change(calendar, upsert, remove)]
    {
      var left := remove;
      while left != {}
        invariant left <= remove && objects == old(objects) - (remove - left)
        invariant calendars == old(calendars) && changes == old(changes)
        decreases |left|
      {
        var href :| href in left;
        objects := objects - {href};
        left := left - {href};
      }
      ghost var before := objects;
      assert before == old(objects) - remove;
      for i := 0 to |upsert|
        invariant objects == PutAll(before, calendar.listed.href, upsert[..i])
        invariant calendars == old(calendars) && changes == old(changes)
      {
        var o := upsert[i];
        objects := objects[o.href := CachedObject(calendar.listed.href, o.etag, o.ics)];
        assert upsert[..i + 1][..i] == upsert[..i];
      }
      assert upsert[..|upsert|] == upsert;
      calendars := calendars[calendar.listed.href := calendar];
      changes := changes + [Change(calendar, upsert, remove)];
    }
  }
}
