/** One CalDAV request and the redirects it follows (`caldav/client.ts`). */
module CalDavRequest {
  import opened Wrappers
  import opened CalDavServer

  /** The answer at the end of the redirects, and the address it came from. */
  datatype Final = Final(status: nat, condition: Option<Condition>, etag: Option<string>, text: string, url: Url)

  predicate IsOwn(url: Url, origin: string) {
    url.origin == origin && !url.hasUserInfo
  }

  /** A redirect to an address of the server. */
  predicate IsFollowable(response: Response, origin: string) {
    response.Redirect? && response.target.Some? && IsOwn(response.target.value, origin)
  }

  predicate IsSeeOther(response: Response) {
    response.Redirect? && response.status == 303
  }

  /** The request after a redirect: a 303 turns it into a `GET` without a body, under the same headers. */
  function Next(request: Request, response: Response): Request
    requires response.Redirect? && response.target.Some?
  {
    if response.status == 303 then request.(verb := Get, body := None, url := response.target.value)
    else request.(url := response.target.value)
  }

  /** How a call ends with its last response. */
  function Ended(last: Hop, origin: string): CalDavResult<Final> {
    match last.response
    case Answer(status, condition, etag, text) => Ok(Final(status, condition, etag, text, last.request.url))
    case Failed(code) => Err(Plain(code))
    case Hidden => Err(Plain(ServerError))
    case Redirect(status, target) =>
      if target.None? || target.value.hasUserInfo then Err(CalDavError(ServerError, Some(status), None))
      else if target.value.origin != origin then Err(CalDavError(CrossOriginRedirect, Some(status), None))
      else Err(Plain(TooManyRedirects))
  }

  /** The requests of one call: each follows from the redirect before it. */
  ghost predicate IsChain(hops: seq<Hop>, origin: string, first: Request) {
    && (hops != [] ==> hops[0].request == first && IsOwn(first.url, origin) && first.authorized)
    && forall i :: 0 <= i < |hops| - 1 ==> Leads(hops[i], hops[i + 1], origin)
  }

  ghost predicate Leads(hop: Hop, next: Hop, origin: string) {
    IsFollowable(hop.response, origin) && next.request == Next(hop.request, hop.response)
  }

  /** The request still is what was asked for, at whatever address. */
  predicate IsAsAsked(request: Request, first: Request) {
    request == first.(url := request.url)
  }

  predicate IsRead(request: Request) {
    request.verb.Get? && request.body.None?
  }

  /** A 303 before hop `n`. */
  ghost predicate SeeOtherBefore(hops: seq<Hop>, n: nat) {
    exists i :: 0 <= i < n && i < |hops| && IsSeeOther(hops[i].response)
  }

  /** A 303 was followed: the last answer is that of a `GET`. */
  ghost predicate FollowedSeeOther(hops: seq<Hop>) {
    |hops| > 0 && SeeOtherBefore(hops, |hops| - 1)
  }

  // ---- What a call may send

  /**
   * Every request of a call goes to the server, authorized and with the headers of the first; it is
   * the one asked for until a 303 is followed, and a `GET` without a body from then on.
   */
  lemma {:induction false} ChainAt(hops: seq<Hop>, origin: string, first: Request, i: nat)
    requires IsChain(hops, origin, first) && i < |hops|
    ensures var request := hops[i].request;
      && IsOwn(request.url, origin) && request.authorized && request.guard == first.guard
      && if SeeOtherBefore(hops, i) then IsRead(request) else IsAsAsked(request, first)
  {
    if i > 0 {
      ChainAt(hops, origin, first, i - 1);
      assert Leads(hops[i - 1], hops[i], origin);
      SeeOtherStep(hops, i - 1);
    }
  }

  lemma {:induction false} SeeOtherStep(hops: seq<Hop>, i: nat)
    requires i < |hops|
    ensures SeeOtherBefore(hops, i + 1) <==> SeeOtherBefore(hops, i) || IsSeeOther(hops[i].response)
  {
  }

  // ---- What a call may change

  ghost predicate HasChange(hops: seq<Hop>) {
    exists i :: 0 <= i < |hops| && Mutates(hops[i].did)
  }

  /** A change is made by the request as it was asked for, and by the last one unless it answered 303. */
  lemma {:induction false} ChangedAt(hops: seq<Hop>, origin: string, first: Request, body: Bodies, i: nat)
    requires IsChain(hops, origin, first) && AreLawful(hops, body) && i < |hops| && Mutates(hops[i].did)
    ensures IsAsAsked(hops[i].request, first) || IsRead(first)
    ensures !hops[i].request.verb.Get? && !SeeOtherBefore(hops, i)
    ensures i < |hops| - 1 ==> IsSeeOther(hops[i].response) && FollowedSeeOther(hops)
  {
    ChainAt(hops, origin, first, i);
    assert IsLawful(hops[i], body);
    if i < |hops| - 1 {
      assert Leads(hops[i], hops[i + 1], origin);
    }
  }

  /** One call changes the server at most once. */
  lemma {:induction false} AtMostOneChange(
    hops: seq<Hop>, origin: string, first: Request, body: Bodies, i: nat, j: nat)
    requires IsChain(hops, origin, first) && AreLawful(hops, body) && i < j < |hops|
    ensures !(Mutates(hops[i].did) && Mutates(hops[j].did))
  {
    if Mutates(hops[i].did) && Mutates(hops[j].did) {
      ChangedAt(hops, origin, first, body, i);
      ChangedAt(hops, origin, first, body, j);
    }
  }

  // ---- When an answer is to be believed

  /** The same requests and answers, whatever the server did for them. */
  ghost predicate SameExchange(a: seq<Hop>, b: seq<Hop>) {
    |a| == |b| && forall i :: 0 <= i < |a| ==> a[i].request == b[i].request && a[i].response == b[i].response
  }

  /** Every honest server that gave these answers carried the request out. */
  ghost predicate ProvesChange(hops: seq<Hop>, body: Bodies) {
    forall other: seq<Hop> :: SameExchange(hops, other) && AreLawful(other, body) ==> HasChange(other)
  }

  /** No honest server that gave these answers carried the request out. */
  ghost predicate ProvesNoChange(hops: seq<Hop>, body: Bodies) {
    forall other: seq<Hop> :: SameExchange(hops, other) && AreLawful(other, body) ==> !HasChange(other)
  }

  lemma {:induction false} SameChain(a: seq<Hop>, b: seq<Hop>, origin: string, first: Request)
    requires IsChain(a, origin, first) && SameExchange(a, b)
    ensures IsChain(b, origin, first)
    ensures FollowedSeeOther(a) <==> FollowedSeeOther(b)
  {
    forall i | 0 <= i < |b| - 1
      ensures Leads(b[i], b[i + 1], origin)
    {
      assert Leads(a[i], a[i + 1], origin);
    }
  }

  /** The hops with nothing changed. */
  function Quiet(hops: seq<Hop>): (r: seq<Hop>)
    ensures |r| == |hops|
  {
    seq(|hops|, i requires 0 <= i < |hops| => if Mutates(hops[i].did) then hops[i].(did := Nothing) else hops[i])
  }

  /** What a write may say that nothing changed for it. */
  predicate AdmitsNoChange(response: Response) {
    !(response.Answer? && IsWritten(response.status))
  }

  lemma {:induction false} QuietIsLawful(hop: Hop, body: Bodies)
    requires IsLawful(hop, body) && Mutates(hop.did) && AdmitsNoChange(hop.response)
    ensures IsLawful(hop.(did := Nothing), body)
  {
  }

  /**
   * The success of a write proves that it was carried out exactly when no 303 was followed: the 200
   * that a followed 303 leads to is that of a `GET`.
   */
  lemma {:induction false} SuccessProvesTheChange(hops: seq<Hop>, origin: string, first: Request, body: Bodies)
    requires hops != [] && IsChain(hops, origin, first) && AreLawful(hops, body)
    requires first.verb.Put? || first.verb.Delete?
    requires Ended(hops[|hops| - 1], origin).Ok? && IsWritten(Ended(hops[|hops| - 1], origin).value.status)
    ensures ProvesChange(hops, body) <==> !FollowedSeeOther(hops)
  {
    if FollowedSeeOther(hops) {
      QuietAfterSeeOther(hops, origin, first, body);
    } else {
      forall other: seq<Hop> | SameExchange(hops, other) && AreLawful(other, body)
        ensures HasChange(other)
      {
        SuccessIsAChange(other, hops, origin, first, body);
      }
    }
  }

  lemma {:induction false} SuccessIsAChange(
    other: seq<Hop>, hops: seq<Hop>, origin: string, first: Request, body: Bodies)
    requires hops != [] && IsChain(hops, origin, first) && !FollowedSeeOther(hops)
    requires first.verb.Put? || first.verb.Delete?
    requires Ended(hops[|hops| - 1], origin).Ok? && IsWritten(Ended(hops[|hops| - 1], origin).value.status)
    requires SameExchange(hops, other) && AreLawful(other, body)
    ensures HasChange(other)
  {
    var last := |hops| - 1;
    ChainAt(hops, origin, first, last);
    assert IsLawful(other[last], body);
    assert Mutates(other[last].did);
  }

  lemma {:induction false} QuietAfterSeeOther(hops: seq<Hop>, origin: string, first: Request, body: Bodies)
    requires IsChain(hops, origin, first) && AreLawful(hops, body) && FollowedSeeOther(hops)
    ensures SameExchange(hops, Quiet(hops)) && AreLawful(Quiet(hops), body) && !HasChange(Quiet(hops))
  {
    forall i | 0 <= i < |hops|
      ensures IsLawful(Quiet(hops)[i], body)
    {
      assert IsLawful(hops[i], body);
      if Mutates(hops[i].did) {
        ChangedAt(hops, origin, first, body, i);
        SeeOtherAfter(hops, i);
        QuietIsLawful(hops[i], body);
      }
    }
  }

  /** A change under a followed 303 lies before the last hop. */
  lemma {:induction false} SeeOtherAfter(hops: seq<Hop>, i: nat)
    requires FollowedSeeOther(hops) && i < |hops| && !SeeOtherBefore(hops, i)
    ensures i < |hops| - 1
  {
  }

  /** A response that does not say whether the write was carried out. */
  predicate LeavesOpen(response: Response) {
    match response
    case Failed(_) => true
    case Hidden => true
    case Redirect(status, _) => status == 303
    case Answer(status, condition, _, _) => !IsRefusal(status) && condition != Some(UID_CLASH)
  }

  /** What carrying out a write would have done. */
  function Change(request: Request, body: Bodies): Event {
    if request.verb.Put? && request.body.Some? then
      if Permits(request.guard, None) then Created(request.url, request.body.value)
      else Replaced(request.url, Named(request, body), request.body.value)
    else Deleted(request.url, Named(request, body))
  }

  /** The version a guard names. */
  function Named(request: Request, body: Bodies): Stored {
    var etag := match request.guard case Some(IfMatch(header)) => header case _ => "";
    Stored(etag, body(request.url, etag))
  }

  /** A guarded write: a `PUT` with a text under either guard, or a `DELETE` under one entity tag. */
  predicate IsGuardedWrite(request: Request) {
    && request.guard.Some? && (request.guard.value.IfMatch? ==> IsEntityTag(request.guard.value.header))
    && ((request.verb.Put? && request.body.Some?) || (request.verb.Delete? && request.guard.value.IfMatch?))
  }

  lemma {:induction false} ChangeIsLawful(hop: Hop, body: Bodies)
    requires IsLawful(hop, body) && IsGuardedWrite(hop.request) && LeavesOpen(hop.response)
    ensures IsLawful(hop.(did := Change(hop.request, body)), body) && Mutates(Change(hop.request, body))
  {
    var request := hop.request;
    if request.guard.value.IfMatch? {
      EntityTagAdmitsOne(request.guard.value.header, Named(request, body));
    }
  }

  /** The failure of a guarded write leaves open whether it was carried out: the write's own last answer does, or a 303 was followed. */
  ghost predicate LeavesChangeOpen(hops: seq<Hop>) {
    hops != [] && (FollowedSeeOther(hops) || LeavesOpen(hops[|hops| - 1].response))
  }

  lemma {:induction false} OpenAt(hops: seq<Hop>, origin: string, first: Request) returns (i: nat)
    requires IsChain(hops, origin, first) && LeavesChangeOpen(hops)
    ensures i < |hops| && !SeeOtherBefore(hops, i) && LeavesOpen(hops[i].response)
  {
    if FollowedSeeOther(hops) {
      i := FirstSeeOther(hops, |hops| - 1);
    } else {
      i := |hops| - 1;
    }
  }

  lemma {:induction false} FirstSeeOther(hops: seq<Hop>, n: nat) returns (i: nat)
    requires n <= |hops| && SeeOtherBefore(hops, n)
    ensures i < n && IsSeeOther(hops[i].response) && !SeeOtherBefore(hops, i)
  {
    SeeOtherStep(hops, n - 1);
    if SeeOtherBefore(hops, n - 1) {
      i := FirstSeeOther(hops, n - 1);
    } else {
      i := n - 1;
    }
  }

  /** A change leaves its answer open, or the call succeeds. */
  lemma {:induction false} ChangeWasOpen(hops: seq<Hop>, origin: string, first: Request, body: Bodies)
    requires IsChain(hops, origin, first) && AreLawful(hops, body) && HasChange(hops)
    ensures LeavesChangeOpen(hops)
  {
    var i :| 0 <= i < |hops| && Mutates(hops[i].did);
    ChangedAt(hops, origin, first, body, i);
    assert IsLawful(hops[i], body);
  }

  /** A call proves that nothing was changed exactly when no 303 was followed and its last answer refuses. */
  lemma {:induction false} FailureProvesNoChange(hops: seq<Hop>, origin: string, first: Request, body: Bodies)
    requires hops != [] && IsChain(hops, origin, first) && AreLawful(hops, body) && IsGuardedWrite(first)
    ensures ProvesNoChange(hops, body) <==> !LeavesChangeOpen(hops)
  {
    if LeavesChangeOpen(hops) {
      var i := OpenAt(hops, origin, first);
      ChainAt(hops, origin, first, i);
      assert IsLawful(hops[i], body);
      ChangeIsLawful(hops[i], body);
      var other := hops[i := hops[i].(did := Change(hops[i].request, body))];
      assert SameExchange(hops, other) && AreLawful(other, body) && Mutates(other[i].did);
    } else {
      forall other: seq<Hop> | SameExchange(hops, other) && AreLawful(other, body)
        ensures !HasChange(other)
      {
        SameChain(hops, other, origin, first);
        if HasChange(other) {
          ChangeWasOpen(other, origin, first, body);
        }
      }
    }
  }

  // ---- The loop

  /** One more hop, unless the call ends with it. */
  lemma {:induction false} ChainGrows(hops: seq<Hop>, origin: string, first: Request, hop: Hop)
    requires IsChain(hops, origin, first) && first.authorized
    requires hops == [] ==> hop.request == first && IsOwn(first.url, origin)
    requires hops != [] ==> Leads(hops[|hops| - 1], hop, origin)
    ensures IsChain(hops + [hop], origin, first)
  {
  }

  /**
   * `send`: redirects are followed by hand, at most `maxRedirects` of them, never off the server's
   * origin and never to an address with a login.
   */
  method Send(server: Server, origin: string, verb: Verb, url: Url, body: Option<string>, guard: Option<Guard>,
    maxRedirects: nat) returns (r: CalDavResult<Final>, ghost hops: seq<Hop>)
    requires server.Valid()
    modifies server
    ensures server.Valid() && server.trace == old(server.trace) + hops && AreLawful(hops, server.body)
    ensures |hops| <= maxRedirects + 1 && IsChain(hops, origin, Request(verb, url, body, guard, true))
    ensures hops == [] <==> !IsOwn(url, origin)
    ensures hops != [] && IsFollowable(hops[|hops| - 1].response, origin) ==> |hops| == maxRedirects + 1
    ensures hops == [] ==> r.Err? && r.error.code in {OutsideServer, InvalidArgument} && r.error.status.None?
    ensures hops != [] ==> r == Ended(hops[|hops| - 1], origin)
  {
    hops := [];
    ghost var first := Request(verb, url, body, guard, true);
    var request := Request(verb, url, body, guard, true);
    var hop: nat := 0;
    while true
      invariant server.Valid() && server.trace == old(server.trace) + hops && AreLawful(hops, server.body)
      invariant hop == |hops| <= maxRedirects && IsChain(hops, origin, first)
      invariant request.authorized
      invariant hops == [] ==> request == first
      invariant hops != [] ==> IsFollowable(hops[|hops| - 1].response, origin)
      invariant hops != [] ==> request == Next(hops[|hops| - 1].request, hops[|hops| - 1].response)
      decreases maxRedirects - hop
    {
      if request.url.origin != origin {
        return Err(Plain(OutsideServer)), hops;
      }
      if request.url.hasUserInfo {
        return Err(Plain(InvalidArgument)), hops;
      }
      var response;
      ghost var done;
      response, done := server.Fetch(request.(authorized := request.url.origin == origin));
      ChainGrows(hops, origin, first, done);
      hops := hops + [done];
      match response
      case Failed(code) => return Err(Plain(code)), hops;
      case Hidden => return Err(Plain(ServerError)), hops;
      case Answer(status, condition, etag, text) =>
        return Ok(Final(status, condition, etag, text, request.url)), hops;
      case Redirect(status, target) =>
        if target.None? || target.value.hasUserInfo {
          return Err(CalDavError(ServerError, Some(status), None)), hops;
        }
        if target.value.origin != origin {
          return Err(CalDavError(CrossOriginRedirect, Some(status), None)), hops;
        }
        if hop >= maxRedirects {
          return Err(Plain(TooManyRedirects)), hops;
        }
        request := Next(request, response);
        hop := hop + 1;
    }
  }
}
