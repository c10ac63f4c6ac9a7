/** Splitting a subscription feed into events (`caldav/client.ts`; section 4.1 of RFC 4791). */
module CalDavFeed {
  import opened Wrappers
  import opened JsText
  import opened MailLines
  import opened IcalLines

  /** An event: its UID, and what its `VCALENDAR` holds. */
  datatype Event = Event(uid: string, children: seq<Component>)

  type Zones = map<string, Component>

  /** A trimmed property that is not empty. */
  function Named(component: Component, property: string): Option<string> {
    match GetProperty(component.properties, property)
    case None => None
    case Some(value) => if Trim(value) == "" then None else Some(Trim(value))
  }

  predicate IsZone(component: Component) {
    component.name == "VTIMEZONE"
  }

  /** The event a component of the feed belongs to, if any. */
  function UidOfChild(component: Component): Option<string> {
    if IsZone(component) then None else Named(component, "UID")
  }

  // ---- Time zones

  function ZonesOf(feed: seq<Component>): Zones {
    if feed == [] then map[]
    else
      var zones, last := ZonesOf(feed[..|feed| - 1]), feed[|feed| - 1];
      if IsZone(last) && Named(last, "TZID").Some? then zones[Named(last, "TZID").value := last] else zones
  }

  function ParameterValues(params: seq<(string, seq<string>)>, name: string): seq<string> {
    if params == [] then []
    else if AsciiUpper(params[0].0) == name then params[0].1
    else ParameterValues(params[1..], name)
  }

  function PropertyTzids(properties: seq<Property>): seq<string> {
    if properties == [] then [] else ParameterValues(properties[0].params, "TZID") + PropertyTzids(properties[1..])
  }

  /** `tzidsOf`: every `TZID` in a component and the components inside it. */
  function TzidsOf(component: Component): seq<string>
    decreases component, 1
  {
    PropertyTzids(component.properties) + AllTzids(component.components)
  }

  function AllTzids(components: seq<Component>): seq<string>
    decreases components, 0
  {
    if components == [] then [] else TzidsOf(components[0]) + AllTzids(components[1..])
  }

  /** The first occurrences. */
  function Distinct(names: seq<string>): seq<string> {
    if names == [] then []
    else
      var front, last := Distinct(names[..|names| - 1]), names[|names| - 1];
      if last in front then front else front + [last]
  }

  function UsedZones(zones: Zones, names: seq<string>): seq<Component> {
    if names == [] then []
    else (if names[0] in zones then [zones[names[0]]] else []) + UsedZones(zones, names[1..])
  }

  // ---- Groups

  /** The components of one event, in feed order. */
  function Group(feed: seq<Component>, uid: string): seq<Component> {
    if feed == [] then []
    else
      Group(feed[..|feed| - 1], uid) +
      if UidOfChild(feed[|feed| - 1]) == Some(uid) then [feed[|feed| - 1]] else []
  }

  /** The UIDs of the feed, in the order they first appear. */
  function Uids(feed: seq<Component>): seq<string> {
    if feed == [] then []
    else
      var front, uid := Uids(feed[..|feed| - 1]), UidOfChild(feed[|feed| - 1]);
      if uid.None? || uid.value in front then front else front + [uid.value]
  }

  function EventOf(feed: seq<Component>, uid: string): Event {
    var group := Group(feed, uid);
    Event(uid, UsedZones(ZonesOf(feed), Distinct(AllTzids(group))) + group)
  }

  function EventsFor(feed: seq<Component>, uids: seq<string>): seq<Event> {
    if uids == [] then [] else EventsFor(feed, uids[..|uids| - 1]) + [EventOf(feed, uids[|uids| - 1])]
  }

  /** How large the texts of the events are together. */
  function TotalSize(events: seq<Event>, size: seq<Component> -> nat): nat {
    if events == [] then 0 else TotalSize(events[..|events| - 1], size) + size(events[|events| - 1].children)
  }

  /** `eventsByUid`; `None` when the events would be too large together. */
  function EventsByUid(feed: seq<Component>, size: seq<Component> -> nat, maxBytes: nat): Option<seq<Event>> {
    var events := EventsFor(feed, Uids(feed));
    if TotalSize(events, size) > maxBytes then None else Some(events)
  }

  // ---- Nothing is lost and nothing is invented

  lemma {:induction false} DistinctIs(names: seq<string>)
    ensures forall n :: n in Distinct(names) <==> n in names
    ensures forall i, j :: 0 <= i < j < |Distinct(names)| ==> Distinct(names)[i] != Distinct(names)[j]
  {
    if names != [] {
      DistinctIs(names[..|names| - 1]);
      assert names == names[..|names| - 1] + [names[|names| - 1]];
    }
  }

  /** UIDs are distinct across events, and every UID of the feed has its event. */
  lemma {:induction false} UidsAre(feed: seq<Component>)
    ensures forall i, j :: 0 <= i < j < |Uids(feed)| ==> Uids(feed)[i] != Uids(feed)[j]
    ensures forall uid :: uid in Uids(feed) <==> Group(feed, uid) != []
  {
    hide UidOfChild;
    if feed != [] {
      UidsAre(feed[..|feed| - 1]);
    }
  }

  /** A UID stands where it first appears. */
  lemma {:induction false} UidsGrow(front: seq<Component>, more: seq<Component>)
    ensures Uids(front) <= Uids(front + more)
  {
    hide UidOfChild;
    if more == [] {
      assert front + more == front;
    } else {
      UidsGrow(front, more[..|more| - 1]);
      assert (front + more)[..|front| + |more| - 1] == front + more[..|more| - 1];
    }
  }

  /** The groups of several UIDs, one after the other. */
  function Groups(feed: seq<Component>, uids: seq<string>): seq<Component> {
    if uids == [] then [] else Groups(feed, uids[..|uids| - 1]) + Group(feed, uids[|uids| - 1])
  }

  /** The components that belong to an event. */
  function Members(feed: seq<Component>): seq<Component> {
    if feed == [] then []
    else
      Members(feed[..|feed| - 1]) +
      if UidOfChild(feed[|feed| - 1]).Some? then [feed[|feed| - 1]] else []
  }

  lemma {:induction false} GroupStep(front: seq<Component>, last: Component, uid: string)
    ensures Group(front + [last], uid) == Group(front, uid) + if UidOfChild(last) == Some(uid) then [last] else []
  {
    hide UidOfChild;
    assert (front + [last])[..|front|] == front;
  }

  /** What one more component adds to the groups of `uids`. */
  function Extra(last: Component, uids: seq<string>): multiset<Component> {
    if UidOfChild(last).Some? && UidOfChild(last).value in uids then multiset{last} else multiset{}
  }

  lemma {:induction false} ExtraStep(last: Component, uids: seq<string>, uid: string)
    requires uid !in uids
    ensures Extra(last, uids + [uid]) ==
      Extra(last, uids) + if UidOfChild(last) == Some(uid) then multiset{last} else multiset{}
  {
    hide UidOfChild;
  }

  lemma {:induction false} Together(a: seq<Component>, b: seq<Component>)
    ensures multiset(a + b) == multiset(a) + multiset(b)
  {
  }

  /** One more component of the feed is one more in the group of its UID, and in no other. */
  lemma {:induction false} GroupsStep(front: seq<Component>, last: Component, uids: seq<string>)
    requires forall i, j :: 0 <= i < j < |uids| ==> uids[i] != uids[j]
    ensures multiset(Groups(front + [last], uids)) == multiset(Groups(front, uids)) + Extra(last, uids)
  {
    hide UidOfChild, Group, Extra;
    if uids == [] {
      NoExtra(last);
    } else {
      var n := |uids| - 1;
      var rest, uid := uids[..n], uids[n];
      GroupsStep(front, last, rest);
      GroupStep(front, last, uid);
      assert uids == rest + [uid];
      ExtraStep(last, rest, uid);
      Together(Groups(front + [last], rest), Group(front + [last], uid));
      Together(Groups(front, rest), Group(front, uid));
      Together(Group(front, uid), if UidOfChild(last) == Some(uid) then [last] else []);
    }
  }

  lemma {:induction false} NoExtra(last: Component)
    ensures Extra(last, []) == multiset{}
  {
  }

  lemma {:induction false} GroupsAppend(feed: seq<Component>, uids: seq<string>, uid: string)
    ensures Groups(feed, uids + [uid]) == Groups(feed, uids) + Group(feed, uid)
  {
    assert (uids + [uid])[..|uids|] == uids;
  }

  /** A UID that is new to the feed. */
  lemma {:induction false} NewGroup(front: seq<Component>, last: Component, uids: seq<string>, uid: string)
    requires UidOfChild(last) == Some(uid) && Group(front, uid) == []
    ensures Groups(front + [last], uids + [uid]) == Groups(front + [last], uids) + [last]
  {
    hide UidOfChild, Group;
    GroupsAppend(front + [last], uids, uid);
    GroupStep(front, last, uid);
    assert [] + [last] == [last];
  }

  lemma {:induction false} MembersStep(front: seq<Component>, last: Component)
    ensures Members(front + [last]) == Members(front) + if UidOfChild(last).Some? then [last] else []
    ensures Uids(front + [last]) ==
      if UidOfChild(last).None? || UidOfChild(last).value in Uids(front) then Uids(front)
      else Uids(front) + [UidOfChild(last).value]
  {
    hide UidOfChild;
    assert (front + [last])[..|front|] == front;
  }

  /** One more component of the feed lands where its UID says, in an event that was there or in a new one. */
  lemma {:induction false} MemberLands(front: seq<Component>, last: Component)
    requires multiset(Groups(front, Uids(front))) == multiset(Members(front))
    ensures multiset(Groups(front + [last], Uids(front + [last]))) == multiset(Members(front + [last]))
  {
    hide UidOfChild, Group, Groups, Members, Uids;
    var uids, uid := Uids(front), UidOfChild(last);
    UidsAre(front);
    GroupsStep(front, last, uids);
    MembersStep(front, last);
    if uid.None? {
      assert Members(front) + [] == Members(front);
    } else {
      Together(Members(front), [last]);
      if uid.value !in uids {
        NewGroup(front, last, uids, uid.value);
        Together(Groups(front + [last], uids), [last]);
      }
    }
  }

  lemma {:induction false} NoMembers()
    ensures Groups([], Uids([])) == [] && Members([]) == []
  {
  }

  /** Every component of the feed with a UID lands in exactly one event, and no event has any other. */
  lemma {:induction false} EveryMemberOnce(feed: seq<Component>)
    ensures multiset(Groups(feed, Uids(feed))) == multiset(Members(feed))
  {
    hide UidOfChild, Group, Groups, Members, Uids;
    if feed == [] {
      NoMembers();
    } else {
      var front := feed[..|feed| - 1];
      EveryMemberOnce(front);
      MemberLands(front, feed[|feed| - 1]);
      assert feed == front + [feed[|feed| - 1]];
    }
  }

  // ---- Zones

  /** The name a zone of the feed gives itself. */
  function ZoneName(component: Component): Option<string> {
    if IsZone(component) then Named(component, "TZID") else None
  }

  /** The `k`-th component of the feed is the last zone of that name. */
  predicate IsLastZone(feed: seq<Component>, k: int, name: string) {
    0 <= k < |feed| && ZoneName(feed[k]) == Some(name) && forall j :: k < j < |feed| ==> ZoneName(feed[j]) != Some(name)
  }

  predicate DefinesZone(feed: seq<Component>, name: string) {
    exists k :: 0 <= k < |feed| && ZoneName(feed[k]) == Some(name)
  }

  lemma {:induction false} ZonesStep(front: seq<Component>, last: Component)
    ensures ZonesOf(front + [last]) ==
      if ZoneName(last).Some? then ZonesOf(front)[ZoneName(last).value := last] else ZonesOf(front)
  {
    hide Named, IsZone;
    assert (front + [last])[..|front|] == front;
  }

  lemma {:induction false} LastZoneStep(front: seq<Component>, last: Component, name: string)
    ensures ZoneName(last) == Some(name) ==>
      IsLastZone(front + [last], |front|, name) && forall k :: IsLastZone(front + [last], k, name) ==> k == |front|
    ensures ZoneName(last) != Some(name) ==>
      forall k :: IsLastZone(front + [last], k, name) <==> IsLastZone(front, k, name)
  {
    hide ZoneName;
    var feed := front + [last];
    assert feed[|front|] == last && forall k :: 0 <= k < |front| ==> feed[k] == front[k];
  }

  /** Every zone that names itself is filed under its name, the last of a name standing. */
  lemma {:induction false} ZonesAreFiled(feed: seq<Component>, name: string)
    ensures forall k :: IsLastZone(feed, k, name) ==> name in ZonesOf(feed) && ZonesOf(feed)[name] == feed[k]
    ensures name in ZonesOf(feed) ==> exists k :: IsLastZone(feed, k, name)
  {
    hide ZoneName, ZonesOf;
    if feed == [] {
      NoZones(name);
    } else {
      var n := |feed| - 1;
      var front, last := feed[..n], feed[n];
      assert feed == front + [last];
      ZonesAreFiled(front, name);
      ZonesStep(front, last);
      LastZoneStep(front, last, name);
      forall k | IsLastZone(feed, k, name)
        ensures name in ZonesOf(feed) && ZonesOf(feed)[name] == feed[k]
      {
        if ZoneName(last) != Some(name) {
          InFront(front, k, name);
        }
      }
    }
  }

  lemma {:induction false} InFront(front: seq<Component>, k: int, name: string)
    requires IsLastZone(front, k, name)
    ensures 0 <= k < |front|
  {
  }

  lemma {:induction false} NoZones(name: string)
    ensures name !in ZonesOf([]) && forall k :: !IsLastZone([], k, name)
  {
  }

  /** Some zone of a name is the last one. */
  lemma {:induction false} DefinedHasLast(feed: seq<Component>, name: string)
    requires DefinesZone(feed, name)
    ensures exists k :: IsLastZone(feed, k, name)
  {
    var n := |feed| - 1;
    LastZoneStep(feed[..n], feed[n], name);
    hide ZoneName;
    assert feed == feed[..n] + [feed[n]];
    if ZoneName(feed[n]) != Some(name) {
      var k :| 0 <= k < |feed| && ZoneName(feed[k]) == Some(name);
      assert feed[..n][k] == feed[k];
      DefinedHasLast(feed[..n], name);
      var last :| IsLastZone(feed[..n], last, name);
      assert IsLastZone(feed, last, name);
    }
  }

  // ---- Where names come from

  lemma {:induction false} SomeIsFirst(properties: seq<Property>, name: string)
    requires GetProperty(properties, name).Some?
    ensures exists k :: IsFirstNamed(properties, name, k)
  {
    hide AsciiUpper;
    if AsciiUpper(properties[0].name) == name {
      assert IsFirstNamed(properties, name, 0);
    } else {
      var rest := properties[1..];
      SomeIsFirst(rest, name);
      var k :| IsFirstNamed(rest, name, k);
      assert forall j :: 1 <= j < |properties| ==> properties[j] == rest[j - 1];
      assert IsFirstNamed(properties, name, k + 1);
    }
  }

  /** A name is the first property that holds it, in any case, trimmed and not empty. */
  lemma {:induction false} NamedIs(component: Component, property: string, name: string)
    ensures Named(component, property) == Some(name) <==>
      (name != "" && exists k ::
         IsFirstNamed(component.properties, property, k) && Trim(component.properties[k].value) == name)
  {
    hide GetProperty, IsFirstNamed, Trim;
    GetPropertyIsFirst(component.properties, property);
    if GetProperty(component.properties, property).Some? {
      SomeIsFirst(component.properties, property);
    }
  }


  /** The `k`-th parameter of a property is the first that is a `TZID`, in any case. */
  predicate IsFirstTzid(params: seq<(string, seq<string>)>, k: int) {
    0 <= k < |params| && AsciiUpper(params[k].0) == "TZID" &&
    forall j :: 0 <= j < k ==> AsciiUpper(params[j].0) != "TZID"
  }

  ghost predicate NamesZone(property: Property, name: string) {
    exists k :: IsFirstTzid(property.params, k) && name in property.params[k].1
  }

  /** A property of the component, or of one inside it at any depth, names the zone. */
  ghost predicate Mentions(component: Component, name: string) {
    exists part, p :: IsWithin(part, component) && p in part.properties && NamesZone(p, name)
  }

  ghost predicate AnyMentions(components: seq<Component>, name: string) {
    exists k :: 0 <= k < |components| && Mentions(components[k], name)
  }

  lemma {:induction false} ParameterIsFirst(params: seq<(string, seq<string>)>, name: string)
    ensures name in ParameterValues(params, "TZID") <==> exists k :: IsFirstTzid(params, k) && name in params[k].1
  {
    hide AsciiUpper;
    if params != [] {
      var rest := params[1..];
      ParameterIsFirst(rest, name);
      assert forall k :: 0 <= k < |rest| ==> rest[k] == params[k + 1];
      if AsciiUpper(params[0].0) == "TZID" {
        assert IsFirstTzid(params, 0);
      } else {
        assert forall k :: IsFirstTzid(rest, k) ==> IsFirstTzid(params, k + 1);
        assert forall k :: IsFirstTzid(params, k) ==> k > 0 && IsFirstTzid(rest, k - 1);
      }
    }
  }

  lemma {:induction false} PropertiesName(properties: seq<Property>, name: string)
    ensures name in PropertyTzids(properties) <==> exists p :: p in properties && NamesZone(p, name)
  {
    hide ParameterValues, IsFirstTzid;
    if properties != [] {
      ParameterIsFirst(properties[0].params, name);
      PropertiesName(properties[1..], name);
      assert properties == [properties[0]] + properties[1..];
      assert properties[0] in properties && forall p :: p in properties[1..] ==> p in properties;
    }
  }

  /** The list of a component's `TZID`s holds exactly the names mentioned anywhere in it. */
  lemma {:induction false} TzidsAre(component: Component, name: string)
    ensures name in TzidsOf(component) <==> Mentions(component, name)
    decreases component, 1
  {
    hide PropertyTzids, NamesZone;
    PropertiesName(component.properties, name);
    AllTzidsAre(component.components, name);
    if name in TzidsOf(component) {
      if name in AllTzids(component.components) {
        var k :| 0 <= k < |component.components| && Mentions(component.components[k], name);
        var part, p :| IsWithin(part, component.components[k]) && p in part.properties && NamesZone(p, name);
        assert IsWithin(part, component);
      } else {
        assert IsWithin(component, component);
      }
    }
    if Mentions(component, name) {
      var part, p :| IsWithin(part, component) && p in part.properties && NamesZone(p, name);
      if part != component {
        var k :| 0 <= k < |component.components| && IsWithin(part, component.components[k]);
        assert Mentions(component.components[k], name);
      }
    }
  }

  lemma {:induction false} AllTzidsAre(components: seq<Component>, name: string)
    ensures name in AllTzids(components) <==> AnyMentions(components, name)
    decreases components, 0
  {
    hide Mentions, TzidsOf;
    if components != [] {
      TzidsAre(components[0], name);
      AllTzidsAre(components[1..], name);
      assert forall k :: 0 <= k < |components| - 1 ==> components[1..][k] == components[k + 1];
      assert forall k :: 1 <= k < |components| ==> components[k] == components[1..][k - 1];
    }
  }

  // ---- What an event holds

  /** Each name has at most one zone, the one filed under it. */
  ghost predicate AreZonesOf(used: seq<Component>, zones: Zones, names: seq<string>) {
    && (forall i :: 0 <= i < |used| ==>
         ZoneName(used[i]).Some? && ZoneName(used[i]).value in names && ZoneName(used[i]).value in zones
         && zones[ZoneName(used[i]).value] == used[i])
    && (forall i, j :: 0 <= i < j < |used| ==> ZoneName(used[i]) != ZoneName(used[j]))
    && (forall name :: name in names && name in zones ==> zones[name] in used)
  }

  lemma {:induction false} UsedAreZones(zones: Zones, names: seq<string>)
    requires forall name :: name in zones ==> ZoneName(zones[name]) == Some(name)
    requires forall i, j :: 0 <= i < j < |names| ==> names[i] != names[j]
    ensures AreZonesOf(UsedZones(zones, names), zones, names)
  {
    hide ZoneName;
    if names != [] {
      var rest := UsedZones(zones, names[1..]);
      UsedAreZones(zones, names[1..]);
      assert names == [names[0]] + names[1..] && names[0] !in names[1..];
      if names[0] in zones {
        FirstZone(rest, zones, names, zones[names[0]]);
      } else {
        assert [] + rest == rest;
      }
    }
  }

  lemma {:induction false} FirstZone(rest: seq<Component>, zones: Zones, names: seq<string>, first: Component)
    requires names != [] && names[0] !in names[1..] && AreZonesOf(rest, zones, names[1..])
    requires names[0] in zones && zones[names[0]] == first && ZoneName(first) == Some(names[0])
    ensures AreZonesOf([first] + rest, zones, names)
  {
    hide ZoneName;
    var used := [first] + rest;
    assert used[0] == first && forall i :: 0 < i < |used| ==> used[i] == rest[i - 1];
    forall name | name in names && name in zones
      ensures zones[name] in used
    {
      if name != names[0] {
        assert name in names[1..] && zones[name] in rest;
      }
    }
  }

  /** The last zone of its name in the feed, mentioned somewhere in the group. */
  ghost predicate IsItsZone(zone: Component, feed: seq<Component>, group: seq<Component>) {
    && ZoneName(zone).Some? && AnyMentions(group, ZoneName(zone).value)
    && exists k :: IsLastZone(feed, k, ZoneName(zone).value) && feed[k] == zone
  }

  /** What stands before a group in its event: its zones, every one, and no two of one name. */
  ghost predicate AreItsZones(used: seq<Component>, feed: seq<Component>, group: seq<Component>) {
    && (forall zone :: zone in used <==> IsItsZone(zone, feed, group))
    && (forall i, j :: 0 <= i < j < |used| ==> ZoneName(used[i]) != ZoneName(used[j]))
  }

  lemma {:induction false} FiledZoneNames(feed: seq<Component>)
    ensures forall name :: name in ZonesOf(feed) ==> ZoneName(ZonesOf(feed)[name]) == Some(name)
  {
    hide ZonesOf, ZoneName;
    forall name | name in ZonesOf(feed)
      ensures ZoneName(ZonesOf(feed)[name]) == Some(name)
    {
      ZonesAreFiled(feed, name);
      var k :| IsLastZone(feed, k, name);
    }
  }

  lemma {:induction false} ZonesAreIts(used: seq<Component>, feed: seq<Component>, group: seq<Component>, names: seq<string>)
    requires AreZonesOf(used, ZonesOf(feed), names)
    requires forall name :: name in names <==> AnyMentions(group, name)
    ensures AreItsZones(used, feed, group)
  {
    forall zone
      ensures zone in used <==> IsItsZone(zone, feed, group)
    {
      if zone in used {
        UsedIsIts(used, feed, group, names, zone);
      }
      if IsItsZone(zone, feed, group) {
        ItsIsUsed(used, feed, group, names, zone);
      }
    }
  }

  lemma {:induction false} UsedIsIts(
    used: seq<Component>, feed: seq<Component>, group: seq<Component>, names: seq<string>, zone: Component)
    requires AreZonesOf(used, ZonesOf(feed), names) && zone in used
    requires forall name :: name in names <==> AnyMentions(group, name)
    ensures IsItsZone(zone, feed, group)
  {
    hide ZonesOf, ZoneName, AnyMentions;
    var i :| 0 <= i < |used| && used[i] == zone;
    var name := ZoneName(zone).value;
    ZonesAreFiled(feed, name);
    var k :| IsLastZone(feed, k, name);
    assert feed[k] == zone;
  }

  lemma {:induction false} ItsIsUsed(
    used: seq<Component>, feed: seq<Component>, group: seq<Component>, names: seq<string>, zone: Component)
    requires AreZonesOf(used, ZonesOf(feed), names) && IsItsZone(zone, feed, group)
    requires forall name :: name in names <==> AnyMentions(group, name)
    ensures zone in used
  {
    hide ZonesOf, ZoneName, AnyMentions;
    var name := ZoneName(zone).value;
    ZonesAreFiled(feed, name);
    assert name in names;
  }

  lemma {:induction false} NoGroup(uid: string)
    ensures Group([], uid) == []
  {
  }

  /** The group of a UID: the components of the feed that carry it, in feed order. */
  lemma {:induction false} GroupIs(a: seq<Component>, b: seq<Component>, uid: string)
    ensures Group(a + b, uid) == Group(a, uid) + Group(b, uid)
    ensures b == [] ==> Group(b, uid) == []
    ensures |b| == 1 ==> Group(b, uid) == if UidOfChild(b[0]) == Some(uid) then [b[0]] else []
  {
    hide UidOfChild, Group;
    NoGroup(uid);
    if b == [] {
      assert a + b == a;
    } else {
      var n := |b| - 1;
      var front, last := b[..n], b[n];
      var more := if UidOfChild(last) == Some(uid) then [last] else [];
      GroupIs(a, front, uid);
      GroupStep(a + front, last, uid);
      GroupStep(front, last, uid);
      Regroup(a, front, [last], []);
      assert b == front + [last];
      Regroup(Group(a, uid), Group(front, uid), more, []);
      assert [] + more == more;
    }
  }

  /** An event ends with its group, after exactly the zones that are mentioned anywhere in it. */
  lemma {:induction false} EventHolds(feed: seq<Component>, uid: string)
    ensures var children, group := EventOf(feed, uid).children, Group(feed, uid);
      var n := |children| - |group|;
      && EventOf(feed, uid).uid == uid && n >= 0
      && children[n..] == group && AreItsZones(children[..n], feed, group)
  {
    hide Group, AllTzids, ZonesOf, UsedZones, ZoneName, AnyMentions, AreZonesOf, AreItsZones;
    var group := Group(feed, uid);
    var names := AllTzids(group);
    var used := UsedZones(ZonesOf(feed), Distinct(names));
    assert EventOf(feed, uid).children == used + group;
    DistinctIs(names);
    forall name
      ensures name in Distinct(names) <==> AnyMentions(group, name)
    {
      AllTzidsAre(group, name);
    }
    FiledZoneNames(feed);
    UsedAreZones(ZonesOf(feed), Distinct(names));
    ZonesAreIts(used, feed, group, Distinct(names));
  }

  // ---- The loops

  ghost predicate IsFiled(feed: seq<Component>, zones: Zones, order: seq<string>, groups: map<string, seq<Component>>) {
    && zones == ZonesOf(feed) && order == Uids(feed)
    && forall uid :: (uid in groups <==> Group(feed, uid) != []) && (uid in groups ==> groups[uid] == Group(feed, uid))
  }

  lemma {:induction false} FileZone(
    feed: seq<Component>, zones: Zones, order: seq<string>, groups: map<string, seq<Component>>, last: Component)
    requires IsFiled(feed, zones, order, groups) && UidOfChild(last).None?
    ensures var next := if IsZone(last) && Named(last, "TZID").Some? then zones[Named(last, "TZID").value := last] else zones;
      IsFiled(feed + [last], next, order, groups)
  {
    hide Named, IsZone, UidOfChild;
    assert (feed + [last])[..|feed|] == feed;
  }

  lemma {:induction false} FileMember(
    feed: seq<Component>, zones: Zones, order: seq<string>, groups: map<string, seq<Component>>, last: Component)
    requires IsFiled(feed, zones, order, groups) && UidOfChild(last).Some? && !IsZone(last)
    ensures var uid := UidOfChild(last).value;
      if uid in groups then IsFiled(feed + [last], zones, order, groups[uid := groups[uid] + [last]])
      else IsFiled(feed + [last], zones, order + [uid], groups[uid := [last]])
  {
    hide Named, IsZone, UidOfChild;
    UidsAre(feed);
    assert (feed + [last])[..|feed|] == feed;
  }

  method FileComponents(feed: seq<Component>)
    returns (zones: Zones, order: seq<string>, groups: map<string, seq<Component>>)
    ensures IsFiled(feed, zones, order, groups)
  {
    hide Named, IsFiled;
    zones, order, groups := map[], [], map[];
    NothingFiled();
    for i := 0 to |feed|
      invariant IsFiled(feed[..i], zones, order, groups)
    {
      var child := feed[i];
      assert feed[..i] + [child] == feed[..i + 1];
      if IsZone(child) {
        FileZone(feed[..i], zones, order, groups, child);
        var tzid := Named(child, "TZID");
        if tzid.Some? {
          zones := zones[tzid.value := child];
        }
      } else {
        var uid := Named(child, "UID");
        if uid.None? {
          FileZone(feed[..i], zones, order, groups, child);
        } else {
          FileMember(feed[..i], zones, order, groups, child);
          if uid.value in groups {
            groups := groups[uid.value := groups[uid.value] + [child]];
          } else {
            groups := groups[uid.value := [child]];
            order := order + [uid.value];
          }
        }
      }
    }
    assert feed[..|feed|] == feed;
  }

  lemma {:induction false} NothingFiled()
    ensures IsFiled([], map[], [], map[])
  {
  }

  lemma {:induction false} FiledGroup(
    feed: seq<Component>, zones: Zones, order: seq<string>, groups: map<string, seq<Component>>, i: nat)
    requires IsFiled(feed, zones, order, groups) && i < |order|
    ensures order[i] in groups && groups[order[i]] == Group(feed, order[i]) && zones == ZonesOf(feed)
  {
    UidsAre(feed);
  }

  lemma {:induction false} SizeGrows(events: seq<Event>, event: Event, size: seq<Component> -> nat)
    ensures TotalSize(events + [event], size) == TotalSize(events, size) + size(event.children)
  {
    assert (events + [event])[..|events|] == events;
  }

  /** The rest of the events only adds to the size. */
  lemma {:induction false} SizeIsMonotone(feed: seq<Component>, uids: seq<string>, i: nat, size: seq<Component> -> nat)
    requires i <= |uids|
    ensures TotalSize(EventsFor(feed, uids[..i]), size) <= TotalSize(EventsFor(feed, uids), size)
    decreases |uids|
  {
    hide EventOf;
    if i < |uids| {
      var n := |uids| - 1;
      SizeIsMonotone(feed, uids[..n], i, size);
      assert uids[..n][..i] == uids[..i];
      SizeGrows(EventsFor(feed, uids[..n]), EventOf(feed, uids[n]), size);
    } else {
      assert uids[..i] == uids;
    }
  }

  method SplitFeed(feed: seq<Component>, size: seq<Component> -> nat, maxBytes: nat) returns (r: Option<seq<Event>>)
    ensures r == EventsByUid(feed, size, maxBytes)
    ensures r.Some? <==> TotalSize(EventsFor(feed, Uids(feed)), size) <= maxBytes
    ensures r.Some? ==> |r.value| == |Uids(feed)|
    ensures r.Some? ==> forall i :: 0 <= i < |r.value| ==> r.value[i] == EventOf(feed, Uids(feed)[i])
  {
    EventsAre(feed, Uids(feed));
    hide IsFiled, TotalSize, Group, AllTzids, Distinct, UsedZones, Uids, ZonesOf, Named, UidOfChild;
    var zones, order, groups := FileComponents(feed);
    assert order == Uids(feed) by {
      FiledOrder(feed, zones, order, groups);
    }
    var events: seq<Event> := [];
    var total: nat := 0;
    NoSize(size);
    for i := 0 to |order|
      invariant events == EventsFor(feed, order[..i]) && total == TotalSize(events, size) <= maxBytes
    {
      FiledGroup(feed, zones, order, groups, i);
      var components := groups[order[i]];
      var used := UsedZones(zones, Distinct(AllTzids(components)));
      var event := Event(order[i], used + components);
      assert event == EventOf(feed, order[i]);
      assert order[..i + 1][..i] == order[..i] && order[..i + 1][i] == order[i];
      SizeGrows(events, event, size);
      total := total + size(event.children);
      events := events + [event];
      if total > maxBytes {
        SizeIsMonotone(feed, order, i + 1, size);
        return None;
      }
    }
    assert order[..|order|] == order;
    r := Some(events);
  }

  lemma {:induction false} EventsAre(feed: seq<Component>, uids: seq<string>)
    ensures var events := EventsFor(feed, uids);
      |events| == |uids| && forall i :: 0 <= i < |uids| ==> events[i] == EventOf(feed, uids[i])
  {
    hide EventOf;
    if uids != [] {
      EventsAre(feed, uids[..|uids| - 1]);
    }
  }

  lemma {:induction false} NoSize(size: seq<Component> -> nat)
    ensures TotalSize([], size) == 0
  {
  }

  lemma {:induction false} FiledOrder(
    feed: seq<Component>, zones: Zones, order: seq<string>, groups: map<string, seq<Component>>)
    requires IsFiled(feed, zones, order, groups)
    ensures order == Uids(feed)
  {
  }
}
