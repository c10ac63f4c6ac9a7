/**
 * A CalDAV server that other devices change between any two requests, what one request may do to it,
 * and what an honest server may answer (`caldav/client.ts`; RFC 9110). An address is its origin, the
 * rest, and whether it carries a login.
 */
module CalDavServer {
  import opened Wrappers
  import opened JsText
  import Scan

  datatype ErrorCode =
    | Conflict | NotFound | Unauthorized | Forbidden | CrossOriginRedirect | OutsideServer | AlreadyExists
    | UidConflict | InvalidArgument | TooLarge | Malformed | Network | Timeout | TooManyRedirects | ServerError

  /** The first condition of a `DAV:error` body. */
  datatype Condition = Condition(namespace: string, name: string)

  datatype CalDavError = CalDavError(code: ErrorCode, status: Option<nat>, condition: Option<string>)

  type CalDavResult<+T> = Result<T, CalDavError>

  const CALDAV_NS := "urn:ietf:params:xml:ns:caldav"

  const UID_CLASH := Condition(CALDAV_NS, "no-uid-conflict")

  function Plain(code: ErrorCode): CalDavError {
    CalDavError(code, None, None)
  }

  // ---- Statuses

  /** `failForStatus`. */
  function FailForStatus(status: nat, condition: Option<string>): CalDavError {
    var code :=
      if status == 401 then Unauthorized
      else if status == 403 then Forbidden
      else if status == 404 || status == 410 then NotFound
      else if status == 413 then TooLarge
      else ServerError;
    CalDavError(code, Some(status), condition)
  }

  /** `expectStatus` for a status that was not expected; `on412` names a failed precondition. */
  function ErrorOf(status: nat, condition: Option<Condition>, on412: Option<ErrorCode>): CalDavError {
    var name := if condition.Some? then Some(condition.value.name) else None;
    if condition == Some(UID_CLASH) then CalDavError(UidConflict, Some(status), name)
    else if status == 412 && on412.Some? && on412.value in {Conflict, AlreadyExists} then
      CalDavError(on412.value, Some(status), name)
    else FailForStatus(status, name)
  }

  // ---- Preconditions (sections 13.1.1 and 13.1.2 of RFC 9110)

  /** `ENTITY_TAG`: one quoted entity tag without quotes or commas inside, strong or weak. */
  predicate IsEntityTag(s: string) {
    var quoted := if "W/" <= s then s[2..] else s;
    && |quoted| >= 2 && quoted[0] == '"' && quoted[|quoted| - 1] == '"'
    && forall i :: 0 < i < |quoted| - 1 ==> quoted[i] != '"' && quoted[i] != ','
  }

  /** `entityTag`: the header when it is one entity tag; anything else reads as missing. */
  function EntityTag(header: Option<string>): Option<string> {
    if header.Some? && IsEntityTag(Trim(header.value)) then Some(Trim(header.value)) else None
  }

  function StripSpaces(s: string): string {
    if s != "" && s[0] == ' ' then StripSpaces(s[1..])
    else if s != "" && s[|s| - 1] == ' ' then StripSpaces(s[..|s| - 1])
    else s
  }

  /** The members of an `If-Match` list. */
  function ListedTags(header: string): set<string>
    decreases |header|
  {
    var comma := Scan.IndexOf(header, ',');
    if comma == -1 then {StripSpaces(header)}
    else {StripSpaces(header[..comma])} + ListedTags(header[comma + 1..])
  }

  /** What a precondition header asks of the object at the address. */
  datatype Guard = IfNoneMatchAny | IfMatch(header: string)

  /**
   * Read as widely as a server may: a weak tag is compared like a strong one. A server that
   * compares strongly carries out fewer writes.
   */
  predicate Holds(guard: Guard, existing: Option<Stored>) {
    match guard
    case IfNoneMatchAny => existing.None?
    case IfMatch(header) => existing.Some? && (header == "*" || existing.value.etag in ListedTags(header))
  }

  /** `requireEtag`: one entity tag that a header can carry exactly as given. */
  predicate IsSendableTag(etag: string) {
    && Trim(etag) != "" && IsEntityTag(etag)
    && forall i :: 0 <= i < |etag| ==> etag[i] <= '\U{FF}' && etag[i] !in {'\0', '\r', '\n'}
  }

  /** A header that passed `requireEtag` admits one version, the one it names. */
  lemma {:induction false} EntityTagAdmitsOne(header: string, existing: Stored)
    requires IsEntityTag(header)
    ensures Holds(IfMatch(header), Some(existing)) <==> existing.etag == header
  {
    var quoted := if "W/" <= header then header[2..] else header;
    forall i | 0 <= i < |header|
      ensures header[i] != ','
    {
      if "W/" <= header {
        assert header[0] == 'W' && header[1] == '/';
        assert i >= 2 ==> header[i] == quoted[i - 2];
      }
    }
    assert ',' !in header;
    Scan.IndexOfIsFirst(header, ',');
    assert header[0] == if "W/" <= header then 'W' else '"';
    assert header[|header| - 1] == quoted[|quoted| - 1] == '"';
  }

  // ---- Requests and responses

  datatype Url = Url(origin: string, path: string, hasUserInfo: bool)

  /** An object at an address: its current entity tag and its text. */
  datatype Stored = Stored(etag: string, data: string)

  datatype Verb = Get | Put | Delete | Other(name: string)

  /** A request as it leaves the device. */
  datatype Request = Request(verb: Verb, url: Url, body: Option<string>, guard: Option<Guard>, authorized: bool)

  /** What comes back: an answer, a redirect (perhaps without a usable target), or nothing. */
  datatype Response =
    | Answer(status: nat, condition: Option<Condition>, etag: Option<string>, text: string)
    | Redirect(status: nat, target: Option<Url>)
    | Hidden
    | Failed(code: ErrorCode)

  /** What the server did for a request, or what was there. */
  datatype Event =
    | Created(url: Url, sent: string)
    | Replaced(url: Url, before: Stored, sent: string)
    | Deleted(url: Url, before: Stored)
    | Found(url: Url, seen: Stored)
    | Missing(url: Url)
    | Nothing

  /** One request, what the server did for it, and what came back. */
  datatype Hop = Hop(request: Request, did: Event, response: Response)

  const REDIRECTS: set<nat> := {301, 302, 303, 307, 308}

  predicate Mutates(e: Event) {
    e.Created? || e.Replaced? || e.Deleted?
  }

  predicate IsWritten(status: nat) {
    status == 200 || status == 201 || status == 204
  }

  predicate IsGone(status: nat) {
    status == 404 || status == 410
  }

  predicate IsRefusal(status: nat) {
    400 <= status < 500 && status != 408
  }

  /** The text that each entity tag of an address names: no tag of one address is given to two texts. */
  type Bodies = (Url, string) -> string

  /** The precondition of a request holds; a request without one may be carried out on anything. */
  predicate Permits(guard: Option<Guard>, existing: Option<Stored>) {
    guard.None? || Holds(guard.value, existing)
  }

  /** What a server may do for a request: never against its precondition, and a `GET` changes nothing. */
  predicate IsLawfulEffect(request: Request, did: Event, body: Bodies) {
    match did
    case Created(url, sent) =>
      request.verb.Put? && url == request.url && request.body == Some(sent) && Permits(request.guard, None)
    case Replaced(url, before, sent) =>
      request.verb.Put? && url == request.url && request.body == Some(sent) && Permits(request.guard, Some(before))
      && before.data == body(url, before.etag)
    case Deleted(url, before) =>
      request.verb.Delete? && url == request.url && Permits(request.guard, Some(before))
      && before.data == body(url, before.etag)
    case Found(url, seen) => request.verb.Get? && url == request.url && seen.data == body(url, seen.etag)
    case Missing(url) => url == request.url
    case Nothing => true
  }

  /**
   * What an honest server may answer. To a write: success only for a change it made, a refusal (4xx
   * but 408, or a UID clash by name) only when it made none, "gone" only when nothing is there, an
   * entity tag only for the text it was sent (section 5.3.4 of RFC 4791). To a `GET`: 200 exactly for
   * what is there. A redirect other than 303 says that the request was not carried out; a 303 points
   * at another resource whether it was or not (section 15.4.4 of RFC 9110). A lost answer, or a
   * redirect that the runtime hides, says nothing.
   */
  predicate IsTruthful(hop: Hop, body: Bodies) {
    var did := hop.did;
    (did.Found? ==> hop.response.Answer? && hop.response.status == 200) &&
    match hop.response
    case Failed(code) => code in {Network, Timeout, TooLarge}
    case Hidden => true
    case Redirect(status, _) => status in REDIRECTS && (status != 303 ==> !Mutates(did))
    case Answer(status, condition, etag, text) =>
      && status !in REDIRECTS && (IsGone(status) ==> did == Missing(hop.request.url))
      && if hop.request.verb.Get? then
           (status == 200 <==> did.Found?)
           && (did.Found? ==> text == did.seen.data && EntityTag(etag) in {None, Some(did.seen.etag)})
         else
           && (IsWritten(status) && !hop.request.verb.Other? ==> Mutates(did))
           && (IsRefusal(status) || condition == Some(UID_CLASH) ==> !Mutates(did))
           && (EntityTag(etag).Some? && hop.request.body.Some? && IsWritten(status) ==>
                hop.request.body.value == body(hop.request.url, EntityTag(etag).value))
  }

  predicate IsLawful(hop: Hop, body: Bodies) {
    IsLawfulEffect(hop.request, hop.did, body) && IsTruthful(hop, body)
  }

  ghost predicate AreLawful(hops: seq<Hop>, body: Bodies) {
    forall i :: 0 <= i < |hops| ==> IsLawful(hops[i], body)
  }

  // ---- The server

  function At(objects: map<Url, Stored>, url: Url): Option<Stored> {
    if url in objects then Some(objects[url]) else None
  }

  /** What is left of finding an object that the answer does not show. */
  function Unanswered(did: Event): Event {
    if did.Found? then Nothing else did
  }

  class Server {
    var objects: map<Url, Stored>
    const body: Bodies
    ghost var trace: seq<Hop>

    constructor (body: Bodies)
      ensures this.body == body && objects == map[] && trace == [] && Valid()
    {
      this.body, objects, trace := body, map[], [];
    }

    predicate AreNamed(objects: map<Url, Stored>) {
      forall u :: u in objects ==> objects[u].data == body(u, objects[u].etag)
    }

    ghost predicate Valid()
      reads this
    {
      AreNamed(objects) && AreLawful(trace, body)
    }

    /** Other devices create, change and delete what they like. */
    method OthersWrite()
      requires Valid()
      modifies this`objects
      ensures Valid()
    {
      var next: map<Url, Stored> := *;
      if AreNamed(next) {
        objects := next;
      }
    }

    /** A write is carried out or not, but never against its precondition; a `GET` looks at what is there. */
    method Act(request: Request) returns (did: Event)
      requires Valid()
      modifies this`objects
      ensures Valid() && IsLawfulEffect(request, did, body)
    {
      var carriedOut: bool, kept: Stored := *, *;
      var existing := At(objects, request.url);
      did := if existing.None? then Missing(request.url) else Nothing;
      if request.verb.Get? {
        if existing.Some? {
          did := Found(request.url, existing.value);
        }
      } else if carriedOut && Permits(request.guard, existing) {
        if request.verb.Delete? && existing.Some? {
          did := Deleted(request.url, existing.value);
          objects := objects - {request.url};
        } else if request.verb.Put? && request.body.Some? && kept.data == body(request.url, kept.etag) {
          did := if existing.Some? then Replaced(request.url, existing.value, request.body.value)
                 else Created(request.url, request.body.value);
          objects := objects[request.url := kept];
        }
      }
    }

    /** One request: others write, the server acts, and its answer arrives or not. */
    method Fetch(request: Request) returns (response: Response, ghost hop: Hop)
      requires Valid()
      modifies this
      ensures Valid() && IsLawful(hop, body) && hop.request == request && hop.response == response
      ensures trace == old(trace) + [hop]
    {
      OthersWrite();
      var did := Act(request);
      response := *;
      if !IsTruthful(Hop(request, did, response), body) {
        did := Unanswered(did);
      }
      if !IsTruthful(Hop(request, did, response), body) {
        response := Failed(Network);
      }
      hop := Hop(request, did, response);
      trace := trace + [hop];
    }

    /** A `PROPFIND` for the privileges: a list, no list, or a failure. */
    method Privileges() returns (r: CalDavResult<Option<seq<string>>>)
      requires Valid()
      modifies this`objects
      ensures Valid()
    {
      OthersWrite();
      r := *;
    }
  }
}
