/** The object calls of `caldav/client.ts`: one guarded request each, and the redirects it follows. */
module CalDavClient {
  import opened Wrappers
  import opened JsText
  import opened CalDavServer
  import opened CalDavRequest

  /** An object as a call gives it. */
  datatype CalDavObject = CalDavObject(url: Url, etag: Option<string>, data: string)

  /** The text of an object is the one its entity tag names. */
  ghost predicate IsHonest(copy: CalDavObject, body: Bodies) {
    copy.etag.Some? ==> copy.data == body(copy.url, copy.etag.value)
  }

  ghost predicate IsCopyOf(copy: CalDavObject, e: Event) {
    && e.Found? && copy.url == e.url && copy.data == e.seen.data
    && (copy.etag.Some? ==> copy.etag.value == e.seen.etag && IsEntityTag(e.seen.etag))
  }

  // ---- The requests

  function Creation(url: Url, ics: string): Request {
    Request(Put, url, Some(ics), Some(IfNoneMatchAny), true)
  }

  function Revision(url: Url, ics: string, etag: string): Request {
    Request(Put, url, Some(ics), Some(IfMatch(etag)), true)
  }

  function Deletion(url: Url, etag: string): Request {
    Request(Delete, url, None, Some(IfMatch(etag)), true)
  }

  function Reading(url: Url): Request {
    Request(Get, url, None, None, true)
  }

  const PUT_DONE: set<nat> := {200, 201, 204}

  const DELETE_DONE: set<nat> := {200, 204}

  // ---- What the end of a call means

  /** `expectStatus` after `send` came back or failed. */
  function Expect(ended: CalDavResult<Final>, expected: set<nat>, on412: Option<ErrorCode>): CalDavResult<Final> {
    match ended
    case Ok(final) =>
      if final.status in expected then Ok(final) else Err(ErrorOf(final.status, final.condition, on412))
    case Err(error) => Err(error)
  }

  /** The object a call gives back, with the text that was written or read. */
  function ObjectOf(r: CalDavResult<Final>, ics: Option<string>): CalDavResult<CalDavObject> {
    match r
    case Ok(final) => Ok(CalDavObject(final.url, EntityTag(final.etag), if ics.Some? then ics.value else final.text))
    case Err(error) => Err(error)
  }

  /** What the last request of a call did. */
  function LastDid(hops: seq<Hop>): Event {
    if hops == [] then Nothing else hops[|hops| - 1].did
  }

  ghost predicate AreReads(hops: seq<Hop>) {
    forall i :: 0 <= i < |hops| ==> IsRead(hops[i].request)
  }

  /** How the last response of a chain of requests reads to the call that sent it. */
  function Outcome(hops: seq<Hop>, origin: string, expected: set<nat>, on412: Option<ErrorCode>): CalDavResult<Final>
    requires hops != []
  {
    Expect(Ended(hops[|hops| - 1], origin), expected, on412)
  }

  /**
   * Without a followed 303 the success of a write is the change it asked for, to the version its guard
   * names, and "gone" is what the last address was; a failure hides a change only as `LeavesChangeOpen` says.
   */
  lemma {:induction false} WriteEnded(
    hops: seq<Hop>, origin: string, first: Request, body: Bodies, expected: set<nat>, on412: Option<ErrorCode>)
    requires hops != [] && IsChain(hops, origin, first) && AreLawful(hops, body) && IsGuardedWrite(first)
    requires expected <= PUT_DONE
    ensures var r, last := Outcome(hops, origin, expected, on412), hops[|hops| - 1];
      && (r.Ok? && !FollowedSeeOther(hops) ==> last.did == Change(first.(url := r.value.url), body) && Mutates(last.did))
      && (r.Ok? && !FollowedSeeOther(hops) && first.body.Some? ==>
           IsHonest(CalDavObject(r.value.url, EntityTag(r.value.etag), first.body.value), body))
      && (r.Err? && r.error.code == NotFound && !FollowedSeeOther(hops) ==> last.did == Missing(last.request.url))
      && (r.Err? && HasChange(hops) ==> LeavesChangeOpen(hops))
  {
    var last := hops[|hops| - 1];
    ChainAt(hops, origin, first, |hops| - 1);
    assert IsLawful(last, body);
    if HasChange(hops) {
      ChangeWasOpen(hops, origin, first, body);
    }
    if Mutates(last.did) && !FollowedSeeOther(hops) {
      assert last.request == first.(url := last.request.url);
      ChangeIsNamed(last, body);
    }
  }

  /** A change under a guard is the one the guard names. */
  lemma {:induction false} ChangeIsNamed(hop: Hop, body: Bodies)
    requires IsLawful(hop, body) && IsGuardedWrite(hop.request) && Mutates(hop.did)
    ensures hop.did == Change(hop.request, body)
  {
    if !hop.did.Created? && hop.request.guard.value.IfMatch? {
      EntityTagAdmitsOne(hop.request.guard.value.header, hop.did.before);
    }
  }

  /** A read changes nothing, and ends with 200 exactly when it found what it gives back. */
  lemma {:induction false} ReadEnded(hops: seq<Hop>, origin: string, url: Url, body: Bodies)
    requires hops != [] && IsChain(hops, origin, Reading(url)) && AreLawful(hops, body)
    ensures AreReads(hops) && !HasChange(hops)
    ensures var r := ObjectOf(Outcome(hops, origin, {200}, None), None);
      && (r.Ok? <==> LastDid(hops).Found?)
      && (r.Ok? ==> IsCopyOf(r.value, LastDid(hops)) && IsHonest(r.value, body))
      && (r.Err? && r.error.code == NotFound ==> LastDid(hops).Missing?)
  {
    forall i | 0 <= i < |hops|
      ensures IsRead(hops[i].request) && !Mutates(hops[i].did)
    {
      ChainAt(hops, origin, Reading(url), i);
      assert IsLawful(hops[i], body);
    }
  }

  // ---- What a followed 303 does to a write

  /** An update that the server answers with a 303 to `v`, and how it answers the `GET` of `v`. */
  function ThroughSeeOther(first: Request, v: Url, did: Event, seen: Event, answer: Response): seq<Hop> {
    [ Hop(first, did, Redirect(303, Some(v))),
      Hop(first.(verb := Get, body := None, url := v), seen, answer) ]
  }

  /**
   * An update of `u` that was not carried out and sent on to an object at `v`: the call succeeds, and
   * gives back the new text under the entity tag of the object at `v`.
   */
  lemma {:induction false} SuccessWithoutChange(
    u: Url, v: Url, ics: string, etag: string, other: Stored, body: Bodies, origin: string)
    requires IsOwn(u, origin) && IsOwn(v, origin) && other.data == body(v, other.etag)
    requires IsEntityTag(other.etag) && Trim(other.etag) == other.etag
    ensures var first := Revision(u, ics, etag);
      var hops := ThroughSeeOther(first, v, Nothing, Found(v, other), Answer(200, None, Some(other.etag), other.data));
      && IsChain(hops, origin, first) && AreLawful(hops, body) && !HasChange(hops)
      && ObjectOf(Outcome(hops, origin, PUT_DONE, Some(Conflict)), Some(ics))
        == Ok(CalDavObject(v, Some(other.etag), ics))
  {
  }

  /** An update of `u` that was carried out and sent on to `v`: the call fails as a conflict or as gone. */
  lemma {:induction false} ChangeWithoutSuccess(
    u: Url, v: Url, ics: string, etag: string, body: Bodies, origin: string)
    requires IsOwn(u, origin) && IsOwn(v, origin) && IsEntityTag(etag)
    ensures var first, did := Revision(u, ics, etag), Replaced(u, Stored(etag, body(u, etag)), ics);
      var changed := ThroughSeeOther(first, v, did, Nothing, Answer(412, None, None, ""));
      var gone := ThroughSeeOther(first, v, did, Missing(v), Answer(404, None, None, ""));
      && IsChain(changed, origin, first) && AreLawful(changed, body) && HasChange(changed)
      && Outcome(changed, origin, PUT_DONE, Some(Conflict)) == Err(CalDavError(Conflict, Some(412), None))
      && IsChain(gone, origin, first) && AreLawful(gone, body) && HasChange(gone)
      && Outcome(gone, origin, PUT_DONE, Some(Conflict)) == Err(CalDavError(NotFound, Some(404), None))
  {
    var first := Revision(u, ics, etag);
    var did := Replaced(u, Stored(etag, body(u, etag)), ics);
    EntityTagAdmitsOne(etag, did.before);
    var changed := ThroughSeeOther(first, v, did, Nothing, Answer(412, None, None, ""));
    var gone := ThroughSeeOther(first, v, did, Missing(v), Answer(404, None, None, ""));
    assert Mutates(changed[0].did) && Mutates(gone[0].did);
  }

  // ---- The calls

  class Client {
    const server: Server
    const origin: string
    const maxRedirects: nat

    constructor (server: Server, origin: string, maxRedirects: nat)
      ensures this.server == server && this.origin == origin && this.maxRedirects == maxRedirects
    {
      this.server, this.origin, this.maxRedirects := server, origin, maxRedirects;
    }

    /** The requests one call sent, in the order they were sent. */
    ghost predicate IsCall(hops: seq<Hop>, first: Request)
      reads server
    {
      && server.Valid() && AreLawful(hops, server.body)
      && IsChain(hops, origin, first) && |hops| <= maxRedirects + 1
    }

    /** `own`: an address of a caller, refused with a login or on another origin. */
    method Own(url: Url) returns (refusal: Option<CalDavError>)
      ensures refusal.None? <==> IsOwn(url, origin)
      ensures refusal.Some? ==> refusal.value == Plain(if url.hasUserInfo then InvalidArgument else OutsideServer)
    {
      refusal :=
        if url.hasUserInfo then Some(Plain(InvalidArgument))
        else if url.origin != origin then Some(Plain(OutsideServer))
        else None;
    }

    /** `createObject` with the name that makes `url`; a taken address is `AlreadyExists`. */
    method CreateObject(url: Url, ics: string) returns (r: CalDavResult<CalDavObject>, ghost hops: seq<Hop>)
      requires server.Valid()
      modifies server
      ensures IsCall(hops, Creation(url, ics)) && server.trace == old(server.trace) + hops
      ensures hops == [] ==> r.Err? && r.error in {Plain(InvalidArgument), Plain(OutsideServer)}
      ensures hops != [] <==> IsOwn(url, origin) && Trim(ics) != ""
      ensures hops != [] ==> r == ObjectOf(Outcome(hops, origin, PUT_DONE, Some(AlreadyExists)), Some(ics))
      ensures r.Ok? && !FollowedSeeOther(hops) ==>
        LastDid(hops) == Created(r.value.url, ics) && r.value.data == ics && IsHonest(r.value, server.body)
      ensures r.Err? && HasChange(hops) ==> LeavesChangeOpen(hops)
    {
      hops := [];
      var refusal := Own(url);
      if refusal.Some? {
        return Err(refusal.value), hops;
      }
      if Trim(ics) == "" {
        return Err(Plain(InvalidArgument)), hops;
      }
      var final;
      final, hops := Send(server, origin, Put, url, Some(ics), Some(IfNoneMatchAny), maxRedirects);
      WriteEnded(hops, origin, Creation(url, ics), server.body, PUT_DONE, Some(AlreadyExists));
      r := ObjectOf(Expect(final, PUT_DONE, Some(AlreadyExists)), Some(ics));
    }

    /** `updateObject`: nothing but the version `etag` names is replaced. */
    method UpdateObject(url: Url, ics: string, etag: string)
      returns (r: CalDavResult<CalDavObject>, ghost hops: seq<Hop>)
      requires server.Valid()
      modifies server
      ensures IsCall(hops, Revision(url, ics, etag)) && server.trace == old(server.trace) + hops
      ensures hops == [] ==> r.Err? && r.error in {Plain(InvalidArgument), Plain(OutsideServer)}
      ensures hops != [] <==> IsOwn(url, origin) && IsSendableTag(etag) && Trim(ics) != ""
      ensures hops != [] ==> r == ObjectOf(Outcome(hops, origin, PUT_DONE, Some(Conflict)), Some(ics))
      ensures r.Ok? && !FollowedSeeOther(hops) ==>
        && LastDid(hops) == Replaced(r.value.url, Stored(etag, server.body(r.value.url, etag)), ics)
        && r.value.data == ics && IsHonest(r.value, server.body)
      ensures r.Err? && HasChange(hops) ==> LeavesChangeOpen(hops)
    {
      hops := [];
      var refusal := Own(url);
      if refusal.Some? {
        return Err(refusal.value), hops;
      }
      if !IsSendableTag(etag) || Trim(ics) == "" {
        return Err(Plain(InvalidArgument)), hops;
      }
      var final;
      final, hops := Send(server, origin, Put, url, Some(ics), Some(IfMatch(etag)), maxRedirects);
      WriteEnded(hops, origin, Revision(url, ics, etag), server.body, PUT_DONE, Some(Conflict));
      r := ObjectOf(Expect(final, PUT_DONE, Some(Conflict)), Some(ics));
    }

    /** `deleteObject`: nothing but the version `etag` names is deleted. */
    method DeleteObject(url: Url, etag: string) returns (r: CalDavResult<Final>, ghost hops: seq<Hop>)
      requires server.Valid()
      modifies server
      ensures IsCall(hops, Deletion(url, etag)) && server.trace == old(server.trace) + hops
      ensures hops == [] ==> r.Err? && r.error in {Plain(InvalidArgument), Plain(OutsideServer)}
      ensures hops != [] <==> IsOwn(url, origin) && IsSendableTag(etag)
      ensures hops != [] ==> r == Outcome(hops, origin, DELETE_DONE, Some(Conflict))
      ensures r.Ok? && !FollowedSeeOther(hops) ==>
        LastDid(hops) == Deleted(r.value.url, Stored(etag, server.body(r.value.url, etag)))
      ensures r.Err? && r.error.code == NotFound && !FollowedSeeOther(hops) ==> LastDid(hops).Missing?
      ensures r.Err? && HasChange(hops) ==> LeavesChangeOpen(hops)
    {
      hops := [];
      var refusal := Own(url);
      if refusal.Some? {
        return Err(refusal.value), hops;
      }
      if !IsSendableTag(etag) {
        return Err(Plain(InvalidArgument)), hops;
      }
      var final;
      final, hops := Send(server, origin, Delete, url, None, Some(IfMatch(etag)), maxRedirects);
      WriteEnded(hops, origin, Deletion(url, etag), server.body, DELETE_DONE, Some(Conflict));
      r := Expect(final, DELETE_DONE, Some(Conflict));
    }

    /** `getObject`: the object as it is now, with its entity tag when that is a valid one. */
    method GetObject(url: Url) returns (r: CalDavResult<CalDavObject>, ghost hops: seq<Hop>)
      requires server.Valid()
      modifies server
      ensures IsCall(hops, Reading(url)) && server.trace == old(server.trace) + hops
      ensures AreReads(hops) && !HasChange(hops)
      ensures hops == [] ==> r.Err? && r.error in {Plain(InvalidArgument), Plain(OutsideServer)}
      ensures hops != [] <==> IsOwn(url, origin)
      ensures hops != [] ==> r == ObjectOf(Outcome(hops, origin, {200}, None), None)
      ensures r.Ok? <==> LastDid(hops).Found?
      ensures r.Ok? ==> IsCopyOf(r.value, LastDid(hops)) && IsHonest(r.value, server.body)
      ensures r.Err? && r.error.code == NotFound ==> LastDid(hops).Missing?
    {
      hops := [];
      var refusal := Own(url);
      if refusal.Some? {
        return Err(refusal.value), hops;
      }
      var final;
      final, hops := Send(server, origin, Get, url, None, None, maxRedirects);
      ReadEnded(hops, origin, url, server.body);
      r := ObjectOf(Expect(final, {200}, None), None);
    }
  }
}
