/**
 * The write transport (`caldav/write.ts`): every queued command becomes guarded requests, between
 * which other devices may write. `calendarUrl`, `urlOf`, `etagOf`, `toIcs` and `objectUrl` are what
 * the app and the `URL` library supply; an entity is the object it is made from.
 */
module CalDavWrite {
  import opened Wrappers
  import opened JsText
  import opened CalDavServer
  import opened CalDavRequest
  import opened CalDavClient
  import opened IcalLines

  datatype Kind = Create | Update | Delete

  datatype Command = Command(kind: Kind, entityId: string, payload: string, baseVersion: nat, ownCreates: seq<string>)

  datatype App = App(
    calendarUrl: Command -> Url,
    objectUrl: (Url, string) -> Option<Url>,
    urlOf: string -> Url,
    etagOf: Command -> Option<string>,
    toIcs: Command -> string)

  datatype SendFailure = Unreachable | VersionConflict | Gone | Taken | Rejected

  datatype WriteError = WriteError(failure: SendFailure, caused: CalDavError)

  type Sent = Result<Option<CalDavObject>, WriteError>

  // ---- Reading a failure

  /** `classifyCalDavError`. */
  function Classify(error: CalDavError): SendFailure {
    match error.code
    case Conflict => VersionConflict
    case NotFound => Gone
    case AlreadyExists => Taken
    case Forbidden => if error.condition.None? then Unreachable else Rejected
    case Unauthorized | Network | Timeout | TooManyRedirects => Unreachable
    case ServerError =>
      if error.status.Some? && 400 <= error.status.value < 500 && error.status.value !in {401, 408, 429}
        && (error.status.value != 403 || error.condition.Some?) then Rejected
      else Unreachable
    case _ => Rejected
  }

  predicate AsksForALaterTry(status: nat, condition: Option<Condition>) {
    !(400 <= status < 500) || status in {401, 408, 429} || (status == 403 && condition.None?)
  }

  /** How every status of an answered write is read. */
  lemma {:induction false} StatusTable(status: nat, condition: Option<Condition>, on412: ErrorCode)
    requires on412 in {Conflict, AlreadyExists}
    ensures var failure := Classify(ErrorOf(status, condition, Some(on412)));
      var clash := condition == Some(UID_CLASH);
      && (failure == VersionConflict <==> !clash && status == 412 && on412 == Conflict)
      && (failure == Taken <==> !clash && status == 412 && on412 == AlreadyExists)
      && (failure == Gone <==> !clash && IsGone(status))
      && (failure == Unreachable <==> (!clash && AsksForALaterTry(status, condition)))
  {
  }

  predicate IsBareForbidden(error: CalDavError) {
    error.condition.None? && (error.code == Forbidden || (error.code == ServerError && error.status == Some(403)))
  }

  predicate AllowsWriting(privileges: seq<string>) {
    exists p :: p in privileges && p in {"all", "write", "write-content", "bind", "unbind"}
  }

  /** The answer about privileges is a list, and holds none that allows writing. */
  predicate ListsNoWritePrivilege(asked: Option<CalDavResult<Option<seq<string>>>>) {
    asked.Some? && asked.value.Ok? && asked.value.value.Some? && !AllowsWriting(asked.value.value.value)
  }

  /** A 303 answered one of the requests, or the last answer was too large to read. */
  ghost predicate HasUnsureAnswer(hops: seq<Hop>) {
    hops != [] && (SeeOtherBefore(hops, |hops|) || hops[|hops| - 1].response == Failed(TooLarge))
  }

  /**
   * A failure that takes a guarded write out of the queue proves that nothing was changed, except
   * exactly when one of its requests was answered by a 303, or the answer was too large to read.
   */
  lemma {:induction false} FinalFailuresHideNothing(
    hops: seq<Hop>, origin: string, first: Request, body: Bodies, expected: set<nat>, on412: ErrorCode)
    requires hops != [] && IsChain(hops, origin, first) && AreLawful(hops, body) && IsGuardedWrite(first)
    requires on412 in {Conflict, AlreadyExists}
    requires var r := Outcome(hops, origin, expected, Some(on412)); r.Err? && Classify(r.error) != Unreachable
    ensures ProvesNoChange(hops, body) <==> !HasUnsureAnswer(hops)
  {
    FailureProvesNoChange(hops, origin, first, body);
    FinalIsOpen(hops, origin, expected, on412);
  }

  /** Of the final failures that no 303 came before, only two leave the write open. */
  lemma {:induction false} FinalIsOpen(hops: seq<Hop>, origin: string, expected: set<nat>, on412: ErrorCode)
    requires hops != [] && on412 in {Conflict, AlreadyExists}
    requires var r := Outcome(hops, origin, expected, Some(on412));
      r.Err? && (Classify(r.error) != Unreachable || IsBareForbidden(r.error))
    requires var last := hops[|hops| - 1].response; last.Failed? ==> last.code in {Network, Timeout, TooLarge}
    ensures HasUnsureAnswer(hops) <==> LeavesChangeOpen(hops)
  {
    SeeOtherStep(hops, |hops| - 1);
    hide SeeOtherBefore;
  }

  /** What a failed write of the client leaves open, when it is final or becomes so. */
  lemma {:induction false} FinalIsOpenIfFinal(
    hops: seq<Hop>, origin: string, expected: set<nat>, on412: ErrorCode, body: Bodies)
    requires hops != [] && on412 in {Conflict, AlreadyExists} && AreLawful(hops, body)
    requires Outcome(hops, origin, expected, Some(on412)).Err?
    ensures var e := Outcome(hops, origin, expected, Some(on412)).error;
      Classify(e) != Unreachable || IsBareForbidden(e) ==> (HasUnsureAnswer(hops) <==> LeavesChangeOpen(hops))
  {
    var e := Outcome(hops, origin, expected, Some(on412)).error;
    if Classify(e) != Unreachable || IsBareForbidden(e) {
      assert IsLawful(hops[|hops| - 1], body);
      FinalIsOpen(hops, origin, expected, on412);
    }
  }

  // ---- What a command may do

  predicate IsSafeEntityId(id: string) {
    && id != "" && id != "." && id != ".."
    && forall i :: 0 <= i < |id| ==>
      'A' <= id[i] <= 'Z' || 'a' <= id[i] <= 'z' || '0' <= id[i] <= '9' || id[i] in {'.', '_', '~', '-'}
  }

  /** The etag a write is based on; an empty one is none. */
  function BaseEtag(app: App, command: Command): Option<string> {
    if app.etagOf(command) == Some("") then None else app.etagOf(command)
  }

  /** The text of a create this device sent before. */
  function OwnText(app: App, command: Command, payload: string): string {
    app.toIcs(command.(kind := Create, payload := payload, baseVersion := 0))
  }

  /** The server's copy is one of this device's own creates. */
  predicate IsOwnCreate(app: App, lib: Library, command: Command, data: string) {
    exists payload :: payload in command.ownCreates && SameLines(lib, OwnText(app, command, payload), data)
  }

  function AddressOf(app: App, command: Command): Option<Url> {
    if command.kind.Create? then app.objectUrl(app.calendarUrl(command), command.entityId)
    else Some(app.urlOf(command.entityId))
  }

  /**
   * The write a command may send after the reads `before`: a create of its text where nothing is, or a
   * change of the version it was written for. Without an etag only a delete goes out, of this
   * device's own create with the tag it was just read with.
   */
  ghost predicate IsWriteOf(app: App, lib: Library, command: Command, before: seq<Hop>, write: Request) {
    match command.kind
    case Create =>
      && IsSafeEntityId(command.entityId) && AddressOf(app, command) == Some(write.url)
      && write == Creation(write.url, app.toIcs(command))
    case Update =>
      && BaseEtag(app, command).Some?
      && write == Revision(app.urlOf(command.entityId), app.toIcs(command), BaseEtag(app, command).value)
    case Delete =>
      if BaseEtag(app, command).Some? then write == Deletion(app.urlOf(command.entityId), BaseEtag(app, command).value)
      else
        && LastDid(before).Found? && IsOwnCreate(app, lib, command, LastDid(before).seen.data)
        && write == Deletion(app.urlOf(command.entityId), LastDid(before).seen.etag)
  }

  // ---- What a command sends

  /** The requests of one command: reads, one write and its redirects, reads. */
  datatype Sending = Sending(before: seq<Hop>, write: seq<Hop>, after: seq<Hop>)

  function All(s: Sending): seq<Hop> {
    s.before + s.write + s.after
  }

  ghost predicate IsSending(app: App, lib: Library, command: Command, origin: string, s: Sending) {
    && AreReads(s.before) && AreReads(s.after)
    && (s.write != [] ==>
         && IsWriteOf(app, lib, command, s.before, s.write[0].request)
         && IsChain(s.write, origin, s.write[0].request) && IsGuardedWrite(s.write[0].request))
  }

  /** What must have happened for a command to count as done. */
  ghost predicate IsDone(app: App, lib: Library, command: Command, s: Sending) {
    match command.kind
    case Create =>
      || LastDid(s.write).Created?
      || (s.after != [] && AddressOf(app, command) == Some(s.after[0].request.url) && LastDid(s.after).Found?
          && SameLines(lib, LastDid(s.after).seen.data, app.toIcs(command)))
    case Update => LastDid(s.write).Replaced?
    case Delete =>
      || LastDid(s.write).Deleted? || LastDid(s.write).Missing?
      || (s.write == [] && LastDid(s.before).Missing?)
  }

  /** What a finished command promises of the requests it sent. */
  ghost predicate Keeps(app: App, lib: Library, command: Command, origin: string, s: Sending, r: Sent) {
    && IsSending(app, lib, command, origin, s)
    && (r.Ok? ==> IsDone(app, lib, command, s) || FollowedSeeOther(s.write))
    && (r.Err? && r.error.failure != Unreachable && HasChange(s.write) ==> HasUnsureAnswer(s.write))
  }

  ghost predicate IsHonestSent(r: Sent, body: Bodies) {
    r.Ok? && r.value.Some? ==> IsHonest(r.value.value, body)
  }

  /** A taken address: the same lines are success, another text of the same UID a conflict, all else a refusal. */
  ghost predicate IsComparison(lib: Library, ics: string, theirs: string, r: Sent) {
    if UidOf(lib, ics).None? || UidOf(lib, theirs) != UidOf(lib, ics) then r.Err? && r.error.failure == Rejected
    else if SameLines(lib, theirs, ics) then r.Ok?
    else r.Err? && r.error.failure == VersionConflict
  }

  /** Without an etag nothing is written, but for a delete that finds this device's own create. */
  ghost predicate IsUnguarded(app: App, lib: Library, command: Command, s: Sending, r: Sent) {
    && (command.kind.Update? || command.ownCreates == [] ==>
         All(s) == [] && r.Err? && r.error.failure == VersionConflict)
    && (LastDid(s.before).Found? && !IsOwnCreate(app, lib, command, LastDid(s.before).seen.data) ==>
         s.write == [] && r.Err? && r.error.failure == VersionConflict)
    && (LastDid(s.before).Missing? && r.Ok? ==> s.write == [])
  }

  // ---- What a command may change

  /** The changes a command may make: no other version than the one it was written for is touched. */
  predicate IsAllowed(app: App, lib: Library, command: Command, before: seq<Hop>, e: Event) {
    match e
    case Created(_, sent) =>
      command.kind.Create? && IsSafeEntityId(command.entityId) && sent == app.toIcs(command)
    case Replaced(_, was, sent) =>
      command.kind.Update? && sent == app.toIcs(command) && BaseEtag(app, command) == Some(was.etag)
    case Deleted(url, was) =>
      && command.kind.Delete?
      && if BaseEtag(app, command).Some? then BaseEtag(app, command).value == was.etag
         else
           var read := LastDid(before);
           && read.Found? && IsOwnCreate(app, lib, command, read.seen.data) && was.etag == read.seen.etag
           && (url == read.url ==> was == read.seen)
    case _ => true
  }

  /** A change is an allowed one, at the command's own address or where redirects of the write led. */
  lemma {:induction false} ChangeIsAllowed(
    app: App, lib: Library, command: Command, origin: string, body: Bodies, s: Sending, i: nat)
    requires IsSending(app, lib, command, origin, s) && AreLawful(s.before, body) && AreLawful(s.write, body)
    requires i < |s.write|
    ensures IsAllowed(app, lib, command, s.before, s.write[i].did)
    ensures AddressOf(app, command) == Some(s.write[0].request.url)
  {
    var first := s.write[0].request;
    if Mutates(s.write[i].did) {
      ChangedAt(s.write, origin, first, body, i);
      assert IsLawful(s.write[i], body);
      ChangeIsNamed(s.write[i], body);
      if s.before != [] {
        assert IsLawful(s.before[|s.before| - 1], body);
      }
    }
  }

  /** Reads change nothing. */
  lemma {:induction false} ReadsChangeNothing(hops: seq<Hop>, body: Bodies)
    requires AreReads(hops) && AreLawful(hops, body)
    ensures !HasChange(hops)
  {
    forall i | 0 <= i < |hops|
      ensures !Mutates(hops[i].did)
    {
      assert IsRead(hops[i].request) && IsLawful(hops[i], body);
    }
  }

  /** A command changes the server at most once. */
  lemma {:induction false} OneChange(
    app: App, lib: Library, command: Command, origin: string, body: Bodies, s: Sending)
    requires IsSending(app, lib, command, origin, s) && AreLawful(All(s), body)
    ensures forall i, j :: 0 <= i < j < |All(s)| ==> !(Mutates(All(s)[i].did) && Mutates(All(s)[j].did))
  {
    AllAreLawful(s, body);
    ReadsChangeNothing(s.before, body);
    ReadsChangeNothing(s.after, body);
    var b := |s.before|;
    forall i, j | 0 <= i < j < |All(s)| && Mutates(All(s)[i].did) && Mutates(All(s)[j].did)
      ensures false
    {
      InTheWrite(s, i);
      InTheWrite(s, j);
      AtMostOneChange(s.write, origin, s.write[0].request, body, i - b, j - b);
    }
  }

  lemma {:induction false} InTheWrite(s: Sending, i: nat)
    requires i < |All(s)| && Mutates(All(s)[i].did) && !HasChange(s.before) && !HasChange(s.after)
    ensures |s.before| <= i < |s.before| + |s.write| && All(s)[i] == s.write[i - |s.before|]
  {
  }

  lemma {:induction false} TailIsLawful(earlier: seq<Hop>, hops: seq<Hop>, body: Bodies)
    requires AreLawful(earlier + hops, body)
    ensures AreLawful(hops, body)
  {
    forall i | 0 <= i < |hops|
      ensures IsLawful(hops[i], body)
    {
      assert (earlier + hops)[|earlier| + i] == hops[i];
    }
  }

  /**
   * The change at `i` is the end of a command's own write and its redirects, which begins at `start`:
   * one that the command was allowed to make.
   */
  ghost predicate IsAccountedFor(
    app: App, lib: Library, command: Command, origin: string, trace: seq<Hop>, start: nat, i: nat)
  {
    && start <= i < |trace|
    && IsWriteOf(app, lib, command, trace[..start], trace[start].request)
    && IsChain(trace[start..i + 1], origin, trace[start].request)
    && IsAllowed(app, lib, command, trace[..start], trace[i].did)
  }

  ghost predicate HasCause(app: App, lib: Library, commands: seq<Command>, origin: string, trace: seq<Hop>, i: nat) {
    exists k, start :: 0 <= k < |commands| && IsAccountedFor(app, lib, commands[k], origin, trace, start, i)
  }

  /** Every change in a run was allowed to one of the commands: no other device's edit is lost. */
  ghost predicate IsGuarded(app: App, lib: Library, commands: seq<Command>, origin: string, trace: seq<Hop>) {
    forall i :: 0 <= i < |trace| && Mutates(trace[i].did) ==> HasCause(app, lib, commands, origin, trace, i)
  }

  lemma {:induction false} AccountedLater(
    app: App, lib: Library, command: Command, origin: string, trace: seq<Hop>, more: seq<Hop>, start: nat, i: nat)
    requires IsAccountedFor(app, lib, command, origin, trace, start, i)
    ensures IsAccountedFor(app, lib, command, origin, trace + more, start, i)
  {
    assert (trace + more)[..start] == trace[..start];
    assert (trace + more)[start..i + 1] == trace[start..i + 1];
  }

  /** The changes of one more command are accounted for, whatever went before. */
  lemma {:induction false} SendingIsAccountedFor(
    app: App, lib: Library, command: Command, origin: string, body: Bodies, earlier: seq<Hop>, s: Sending, j: nat)
    requires IsSending(app, lib, command, origin, s) && AreLawful(All(s), body)
    requires j < |All(s)| && Mutates(All(s)[j].did)
    ensures IsAccountedFor(
      app, lib, command, origin, earlier + All(s), |earlier| + |s.before|, |earlier| + j)
  {
    hide IsAllowed, IsWriteOf, IsLawful, Leads, IsGuardedWrite;
    AllAreLawful(s, body);
    ReadsChangeNothing(s.before, body);
    ReadsChangeNothing(s.after, body);
    InTheWrite(s, j);
    var i := j - |s.before|;
    ChangeIsAllowed(app, lib, command, origin, body, s, i);
    var trace, start := earlier + All(s), |earlier| + |s.before|;
    assert trace[..start] == earlier + s.before;
    assert trace[start..start + i + 1] == s.write[..i + 1];
    assert trace[start] == s.write[0] && trace[start + i] == s.write[i];
    EarlierDoesNotMatter(app, lib, command, earlier, s.before, s.write[0].request, s.write[i].did);
    ChainPrefix(s.write, origin, s.write[0].request, i + 1);
  }

  /** Only the last read before a write matters. */
  lemma {:induction false} EarlierDoesNotMatter(
    app: App, lib: Library, command: Command, earlier: seq<Hop>, before: seq<Hop>, write: Request, e: Event)
    requires IsWriteOf(app, lib, command, before, write) && IsAllowed(app, lib, command, before, e)
    ensures IsWriteOf(app, lib, command, earlier + before, write) && IsAllowed(app, lib, command, earlier + before, e)
  {
    assert before != [] ==> LastDid(earlier + before) == LastDid(before);
  }

  lemma {:induction false} ChainPrefix(hops: seq<Hop>, origin: string, first: Request, n: nat)
    requires IsChain(hops, origin, first) && n <= |hops|
    ensures IsChain(hops[..n], origin, first)
  {
    forall i | 0 <= i < n - 1
      ensures Leads(hops[..n][i], hops[..n][i + 1], origin)
    {
      assert Leads(hops[i], hops[i + 1], origin);
    }
  }

  lemma {:induction false} AllAreLawful(s: Sending, body: Bodies)
    requires AreLawful(All(s), body)
    ensures AreLawful(s.before, body) && AreLawful(s.write, body) && AreLawful(s.after, body)
  {
    var b, w := |s.before|, |s.before| + |s.write|;
    assert forall i :: 0 <= i < |s.before| ==> s.before[i] == All(s)[i];
    assert forall i :: 0 <= i < |s.write| ==> s.write[i] == All(s)[b + i];
    assert forall i :: 0 <= i < |s.after| ==> s.after[i] == All(s)[w + i];
  }

  lemma {:induction false} GuardedGrows(
    app: App, lib: Library, commands: seq<Command>, k: nat, origin: string, body: Bodies, trace: seq<Hop>, s: Sending)
    requires IsGuarded(app, lib, commands, origin, trace) && k < |commands|
    requires IsSending(app, lib, commands[k], origin, s) && AreLawful(All(s), body)
    ensures IsGuarded(app, lib, commands, origin, trace + All(s))
  {
    hide IsAccountedFor, IsSending, AreLawful;
    var all := trace + All(s);
    forall i | 0 <= i < |all| && Mutates(all[i].did)
      ensures HasCause(app, lib, commands, origin, all, i)
    {
      if i < |trace| {
        assert HasCause(app, lib, commands, origin, trace, i);
        var n, start :| 0 <= n < |commands| && IsAccountedFor(app, lib, commands[n], origin, trace, start, i);
        AccountedLater(app, lib, commands[n], origin, trace, All(s), start, i);
      } else {
        SendingIsAccountedFor(app, lib, commands[k], origin, body, trace, s, i - |trace|);
      }
    }
  }

  // ---- What the queue is told

  predicate IsDoneBy(response: Response, expected: set<nat>) {
    response.Answer? && response.status in expected
  }

  predicate IsClash(response: Response) {
    response.Answer? && response.condition == Some(UID_CLASH)
  }

  /** Nothing is at the address. */
  predicate IsGoneBy(response: Response) {
    response.Answer? && IsGone(response.status) && !IsClash(response)
  }

  predicate IsChangedBy(response: Response) {
    response.Answer? && response.status == 412 && !IsClash(response)
  }

  /** A 403 that does not say who refused. */
  predicate IsBarredBy(response: Response) {
    response.Answer? && response.status == 403 && response.condition.None?
  }

  /**
   * The table of the module: what a response that is no success means to the queue. A failed precondition
   * reads as `on412`, a 403 that names no condition as `barred`.
   */
  function Told(response: Response, origin: string, on412: SendFailure, barred: SendFailure): SendFailure {
    match response
    case Failed(code) => if code == TooLarge then Rejected else Unreachable
    case Hidden => Unreachable
    case Redirect(_, target) =>
      if target.Some? && !target.value.hasUserInfo && target.value.origin != origin then Rejected else Unreachable
    case Answer(status, _, _, _) =>
      if IsClash(response) then Rejected
      else if status == 412 then on412
      else if IsGone(status) then Gone
      else if IsBarredBy(response) then barred
      else if status in {401, 408, 429} || status < 400 || status >= 500 then Unreachable
      else Rejected
  }

  predicate IsFailure(r: Sent, failure: SendFailure) {
    r.Err? && r.error.failure == failure
  }

  /** What a bare 403 on a write means: final exactly when the server was asked and lists no privilege to write. */
  function BarredAs(asked: Option<CalDavResult<Option<seq<string>>>>): SendFailure {
    if ListsNoWritePrivilege(asked) then Rejected else Unreachable
  }

  function LastResponse(hops: seq<Hop>): Response
    requires hops != []
  {
    hops[|hops| - 1].response
  }

  /** What the client makes of a last response is what the table says. */
  lemma {:induction false} OutcomeIsTold(
    hops: seq<Hop>, origin: string, expected: set<nat>, on412: Option<ErrorCode>, body: Bodies)
    requires hops != [] && AreLawful(hops, body) && on412 in {None, Some(Conflict), Some(AlreadyExists)}
    ensures var r, last := Outcome(hops, origin, expected, on412), LastResponse(hops);
      && (r.Ok? <==> IsDoneBy(last, expected))
      && (r.Err? ==>
           && Classify(r.error) == Told(last, origin, OnChange(on412), Unreachable)
           && (IsBareForbidden(r.error) <==> IsBarredBy(last)) && (r.error.code == NotFound <==> IsGoneBy(last))
           && (r.error.code == AlreadyExists <==> on412 == Some(AlreadyExists) && IsChangedBy(last)))
  {
    assert IsLawful(hops[|hops| - 1], body);
  }

  function OnChange(on412: Option<ErrorCode>): SendFailure {
    if on412 == Some(Conflict) then VersionConflict else if on412 == Some(AlreadyExists) then Taken else Rejected
  }

  lemma {:induction false} BarredIsTold(response: Response, origin: string, on412: SendFailure, barred: SendFailure)
    ensures Told(response, origin, on412, barred) ==
      if IsBarredBy(response) then barred else Told(response, origin, on412, Unreachable)
  {
  }

  /** The object a write is done with: as it was written, or as it was read back. */
  ghost predicate IsObjectOf(copy: CalDavObject, write: seq<Hop>, after: seq<Hop>, ics: string) {
    && write != [] && LastResponse(write).Answer?
    && var written := CalDavObject(write[|write| - 1].request.url, EntityTag(LastResponse(write).etag), ics);
      if written.etag.None? && LastDid(after).Found? then IsCopyOf(copy, LastDid(after)) else copy == written
  }

  /** What a read says when it finds nothing to compare. */
  ghost predicate IsToldOfRead(read: seq<Hop>, origin: string, r: Sent) {
    read != [] && IsFailure(r, Told(LastResponse(read), origin, Rejected, Unreachable))
  }

  /** A create whose address is taken is told what the object there is. */
  ghost predicate IsToldOfTaken(lib: Library, ics: string, read: seq<Hop>, origin: string, r: Sent) {
    if LastDid(read).Found? then
      IsComparison(lib, ics, LastDid(read).seen.data, r) && (r.Ok? ==> r.value.Some? && IsCopyOf(r.value.value, LastDid(read)))
    else if read != [] && IsGoneBy(LastResponse(read)) then IsFailure(r, Taken)
    else IsToldOfRead(read, origin, r)
  }

  /** After a write the queue is told what its last response says. */
  ghost predicate IsToldOfWrite(
    app: App, lib: Library, command: Command, origin: string, asked: Option<CalDavResult<Option<seq<string>>>>,
    s: Sending, r: Sent)
    requires s.write != []
  {
    var last, barred := LastResponse(s.write), BarredAs(asked);
    match command.kind
    case Create =>
      if IsDoneBy(last, PUT_DONE) then r.Ok? && r.value.Some? && IsObjectOf(r.value.value, s.write, s.after, app.toIcs(command))
      else if IsChangedBy(last) then IsToldOfTaken(lib, app.toIcs(command), s.after, origin, r)
      else IsFailure(r, Told(last, origin, Taken, barred))
    case Update =>
      if IsDoneBy(last, PUT_DONE) then r.Ok? && r.value.Some? && IsObjectOf(r.value.value, s.write, s.after, app.toIcs(command))
      else IsFailure(r, Told(last, origin, VersionConflict, barred))
    case Delete =>
      if IsDoneBy(last, DELETE_DONE) || IsGoneBy(last) then r == Ok(None)
      else IsFailure(r, Told(last, origin, VersionConflict, barred))
  }

  /** Why nothing was written, and what the queue is told then. */
  ghost predicate IsToldOfNothing(app: App, lib: Library, command: Command, origin: string, before: seq<Hop>, r: Sent) {
    if command.kind.Create? || BaseEtag(app, command).Some? then IsFailure(r, Rejected)
    else if command.kind.Update? || command.ownCreates == [] then IsFailure(r, VersionConflict)
    else if before == [] then IsFailure(r, Rejected) && !IsOwn(app.urlOf(command.entityId), origin)
    else if LastDid(before).Found? then IsFailure(r, if OwnTag(app, lib, command, before).Some? then Rejected else VersionConflict)
    else if IsGoneBy(LastResponse(before)) then r == Ok(None)
    else IsToldOfRead(before, origin, r)
  }

  /** The tag of this device's own create as it was just read. */
  ghost function OwnTag(app: App, lib: Library, command: Command, before: seq<Hop>): Option<string> {
    if before != [] && LastDid(before).Found? && IsOwnCreate(app, lib, command, LastDid(before).seen.data)
      && LastResponse(before).Answer? then EntityTag(LastResponse(before).etag)
    else None
  }

  /** The tag a command writes with. */
  ghost function TagFor(app: App, lib: Library, command: Command, before: seq<Hop>): Option<string> {
    if BaseEtag(app, command).Some? then BaseEtag(app, command)
    else if command.kind.Delete? then OwnTag(app, lib, command, before)
    else None
  }

  /** A write goes out exactly when the address is the server's own, and its tag and its text can be sent. */
  ghost predicate MustWrite(app: App, lib: Library, command: Command, origin: string, before: seq<Hop>) {
    && AddressOf(app, command).Some? && IsOwn(AddressOf(app, command).value, origin)
    && (command.kind.Create? ==> IsSafeEntityId(command.entityId))
    && (!command.kind.Create? ==>
         TagFor(app, lib, command, before).Some? && IsSendableTag(TagFor(app, lib, command, before).value))
    && (!command.kind.Delete? ==> Trim(app.toIcs(command)) != "")
  }

  /** What the queue is told follows from the last responses. */
  ghost predicate IsTold(
    app: App, lib: Library, command: Command, origin: string, asks: bool,
    asked: Option<CalDavResult<Option<seq<string>>>>, s: Sending, r: Sent)
  {
    && (s.write != [] <==> MustWrite(app, lib, command, origin, s.before))
    && (asked.Some? <==> asks && s.write != [] && IsBarredBy(LastResponse(s.write)))
    && if s.write != [] then IsToldOfWrite(app, lib, command, origin, asked, s, r)
       else IsToldOfNothing(app, lib, command, origin, s.before, r)
  }

  // ---- From the client's results to the table

  /** What a refused or accepted `PUT` ends as. */
  ghost predicate IsConcluded(
    written: CalDavResult<CalDavObject>, r: Sent, after: seq<Hop>, asks: bool,
    asked: Option<CalDavResult<Option<seq<string>>>>)
  {
    && (asked.Some? <==> asks && written.Err? && IsBareForbidden(written.error))
    && match written
       case Ok(copy) =>
         && r.Ok? && r.value.Some?
         && if copy.etag.None? && LastDid(after).Found? then IsCopyOf(r.value.value, LastDid(after))
            else r.value.value == copy
       case Err(error) =>
         r == Err(WriteError(if ListsNoWritePrivilege(asked) then Rejected else Classify(error), error))
  }

  lemma {:induction false} PutIsTold(
    write: seq<Hop>, after: seq<Hop>, ics: string, origin: string, on412: ErrorCode, asks: bool,
    asked: Option<CalDavResult<Option<seq<string>>>>, r: Sent, body: Bodies)
    requires write != [] && AreLawful(write, body) && on412 in {Conflict, AlreadyExists}
    requires IsConcluded(ObjectOf(Outcome(write, origin, PUT_DONE, Some(on412)), Some(ics)), r, after, asks, asked)
    ensures var last := LastResponse(write);
      && (asked.Some? <==> asks && IsBarredBy(last))
      && if IsDoneBy(last, PUT_DONE) then r.Ok? && r.value.Some? && IsObjectOf(r.value.value, write, after, ics)
         else IsFailure(r, Told(last, origin, OnChange(Some(on412)), BarredAs(asked)))
  {
    var last := LastResponse(write);
    OutcomeIsTold(write, origin, PUT_DONE, Some(on412), body);
    BarredIsTold(last, origin, OnChange(Some(on412)), BarredAs(asked));
    OutcomeObject(write, origin, PUT_DONE, Some(on412), ics);
    hide Told, AreLawful, Classify, IsBareForbidden, Outcome, IsCopyOf;
  }

  lemma {:induction false} OutcomeObject(
    write: seq<Hop>, origin: string, expected: set<nat>, on412: Option<ErrorCode>, ics: string)
    requires write != []
    ensures var r := Outcome(write, origin, expected, on412);
      r.Ok? ==>
        && LastResponse(write).Answer? && r.value.url == write[|write| - 1].request.url
        && r.value.etag == LastResponse(write).etag
  {
  }

  /** A taken address is one that a failed precondition told of. */
  lemma {:induction false} TakenIsTold(write: seq<Hop>, origin: string, error: CalDavError, body: Bodies)
    requires write != [] && AreLawful(write, body)
    requires Outcome(write, origin, PUT_DONE, Some(AlreadyExists)) == Err(error)
    ensures error.code == AlreadyExists <==> IsChangedBy(LastResponse(write))
    ensures error.code == AlreadyExists ==>
      Classify(error) == Taken && !IsBareForbidden(error) && !IsDoneBy(LastResponse(write), PUT_DONE)
      && !IsBarredBy(LastResponse(write))
  {
    OutcomeIsTold(write, origin, PUT_DONE, Some(AlreadyExists), body);
  }

  lemma {:induction false} DeleteIsTold(
    write: seq<Hop>, origin: string, asks: bool, asked: Option<CalDavResult<Option<seq<string>>>>, r: Sent,
    body: Bodies)
    requires write != [] && AreLawful(write, body)
    requires var deleted := Outcome(write, origin, DELETE_DONE, Some(Conflict));
      if deleted.Ok? || deleted.error.code == NotFound then r == Ok(None) && asked.None?
      else
        && (asked.Some? <==> asks && IsBareForbidden(deleted.error))
        && IsFailure(r, if ListsNoWritePrivilege(asked) then Rejected else Classify(deleted.error))
    ensures var last := LastResponse(write);
      && (asked.Some? <==> asks && IsBarredBy(last))
      && if IsDoneBy(last, DELETE_DONE) || IsGoneBy(last) then r == Ok(None)
         else IsFailure(r, Told(last, origin, VersionConflict, BarredAs(asked)))
  {
    var last := LastResponse(write);
    OutcomeIsTold(write, origin, DELETE_DONE, Some(Conflict), body);
    BarredIsTold(last, origin, VersionConflict, BarredAs(asked));
    GoneIsNotBarred(last);
    hide Told, AreLawful, Classify, IsBareForbidden, Outcome;
  }

  lemma {:induction false} GoneIsNotBarred(response: Response)
    ensures IsGoneBy(response) || IsDoneBy(response, PUT_DONE) ==> !IsBarredBy(response)
  {
  }

  /** What the read of an object tells when it did not find one. */
  lemma {:induction false} ReadIsTold(hops: seq<Hop>, origin: string, body: Bodies, error: CalDavError)
    requires hops != [] && AreLawful(hops, body) && Outcome(hops, origin, {200}, None) == Err(error)
    ensures Classify(error) == Told(LastResponse(hops), origin, Rejected, Unreachable)
    ensures error.code == NotFound <==> IsGoneBy(LastResponse(hops))
  {
    OutcomeIsTold(hops, origin, {200}, None, body);
  }

  /** A read that finds an object gives it back with the tag it was sent with. */
  lemma {:induction false} ReadObject(hops: seq<Hop>, origin: string)
    requires hops != []
    ensures var r := ObjectOf(Outcome(hops, origin, {200}, None), None);
      r.Ok? ==> LastResponse(hops).Answer? && r.value.etag == EntityTag(LastResponse(hops).etag)
  {
  }

  /** A call that sent nothing is refused for good. */
  lemma {:induction false} NothingSentIsFinal(error: CalDavError)
    requires error in {Plain(InvalidArgument), Plain(OutsideServer)}
    ensures Classify(error) == Rejected && !IsBareForbidden(error) && error.code != AlreadyExists
  {
  }

  /** A create or an update that ended with its `PUT`. */
  lemma {:induction false} ConcludedIsTold(
    app: App, lib: Library, command: Command, origin: string, asks: bool,
    asked: Option<CalDavResult<Option<seq<string>>>>, s: Sending, r: Sent, written: CalDavResult<CalDavObject>,
    body: Bodies)
    requires !command.kind.Delete? && s.before == [] && AreLawful(s.write, body)
    requires s.write != [] <==> MustWrite(app, lib, command, origin, [])
    requires command.kind.Update? ==> BaseEtag(app, command).Some?
    requires IsConcluded(written, r, s.after, asks, asked)
    requires s.write == [] ==> written.Err? && written.error in {Plain(InvalidArgument), Plain(OutsideServer)}
    requires s.write != [] ==>
      var on412 := if command.kind.Create? then AlreadyExists else Conflict;
      && written == ObjectOf(Outcome(s.write, origin, PUT_DONE, Some(on412)), Some(app.toIcs(command)))
      && (command.kind.Create? ==> !IsChangedBy(LastResponse(s.write)))
    ensures IsTold(app, lib, command, origin, asks, asked, s, r)
  {
    hide MustWrite, AreLawful, Outcome, IsObjectOf, Told, IsDoneBy, IsBarredBy, IsChangedBy, Classify, IsBareForbidden;
    if s.write == [] {
      NothingSentIsFinal(written.error);
    } else {
      PutIsTold(s.write, s.after, app.toIcs(command), origin, if command.kind.Create? then AlreadyExists else Conflict,
        asks, asked, r, body);
    }
  }

  lemma {:induction false} CreateMustWrite(app: App, lib: Library, command: Command, origin: string, address: Url)
    requires command.kind.Create? && IsSafeEntityId(command.entityId) && AddressOf(app, command) == Some(address)
    ensures MustWrite(app, lib, command, origin, []) <==> IsOwn(address, origin) && Trim(app.toIcs(command)) != ""
  {
  }

  /** How the `PUT` of a create may end. */
  lemma {:induction false} CreateEnds(
    write: seq<Hop>, created: CalDavResult<CalDavObject>, origin: string, ics: string, body: Bodies)
    requires AreLawful(write, body)
    requires write == [] ==> created.Err? && created.error in {Plain(InvalidArgument), Plain(OutsideServer)}
    requires write != [] ==> created == ObjectOf(Outcome(write, origin, PUT_DONE, Some(AlreadyExists)), Some(ics))
    ensures created.Err? && created.error.code == AlreadyExists ==>
      && write != [] && IsChangedBy(LastResponse(write)) && !IsDoneBy(LastResponse(write), PUT_DONE)
      && !IsBarredBy(LastResponse(write)) && Classify(created.error) == Taken && !IsBareForbidden(created.error)
    ensures !(created.Err? && created.error.code == AlreadyExists) && write != [] ==> !IsChangedBy(LastResponse(write))
    ensures created.Err? && write != [] && (Classify(created.error) != Unreachable || IsBareForbidden(created.error)) ==>
      (HasUnsureAnswer(write) <==> LeavesChangeOpen(write))
  {
    hide HasUnsureAnswer, LeavesChangeOpen, AreLawful, IsDoneBy, IsBarredBy, IsChangedBy, Outcome, IsBareForbidden;
    if write != [] {
      if created.Err? {
        FinalIsOpenIfFinal(write, origin, PUT_DONE, AlreadyExists, body);
        TakenIsTold(write, origin, created.error, body);
      } else {
        OutcomeIsTold(write, origin, PUT_DONE, Some(AlreadyExists), body);
        DoneIsNotChanged(LastResponse(write));
      }
    }
  }

  /** What `Keeps` needs of a conclusion. */
  lemma {:induction false} IsConcludedSo(
    written: CalDavResult<CalDavObject>, r: Sent, after: seq<Hop>, asks: bool,
    asked: Option<CalDavResult<Option<seq<string>>>>)
    requires IsConcluded(written, r, after, asks, asked)
    ensures r.Ok? <==> written.Ok?
    ensures r.Err? ==>
      r.error.failure == Classify(written.error) || (r.error.failure == Rejected && IsBareForbidden(written.error))
  {
  }

  lemma {:induction false} ErrorOfObject(r: CalDavResult<Final>, ics: string)
    ensures ObjectOf(r, Some(ics)).Err? <==> r.Err?
    ensures r.Err? ==> ObjectOf(r, Some(ics)).error == r.error
  {
  }

  lemma {:induction false} UpdateMustWrite(app: App, lib: Library, command: Command, origin: string, etag: string)
    requires command.kind.Update? && BaseEtag(app, command) == Some(etag)
    ensures MustWrite(app, lib, command, origin, []) <==>
      IsOwn(app.urlOf(command.entityId), origin) && IsSendableTag(etag) && Trim(app.toIcs(command)) != ""
  {
  }

  lemma {:induction false} NothingChanged()
    ensures !HasChange([]) && !FollowedSeeOther([])
  {
  }

  lemma {:induction false} NoEtagEnds(app: App, lib: Library, command: Command, origin: string, asks: bool, r: Sent)
    requires command.kind.Delete? && BaseEtag(app, command).None? && command.ownCreates == []
    requires IsFailure(r, VersionConflict)
    ensures var s := Sending([], [], []);
      && Keeps(app, lib, command, origin, s, r) && IsTold(app, lib, command, origin, asks, None, s, r)
      && IsUnguarded(app, lib, command, s, r)
  {
    NothingChanged();
  }

  /** A delete that ends with what it read. */
  lemma {:induction false} NothingWrittenEnds(
    app: App, lib: Library, command: Command, origin: string, asks: bool, before: seq<Hop>, r: Sent)
    requires command.kind.Delete? && BaseEtag(app, command).None? && command.ownCreates != [] && AreReads(before)
    requires OwnTag(app, lib, command, before).None? && IsToldOfNothing(app, lib, command, origin, before, r)
    requires r.Ok? ==> LastDid(before).Missing?
    ensures var s := Sending(before, [], []);
      && Keeps(app, lib, command, origin, s, r) && IsTold(app, lib, command, origin, asks, None, s, r)
      && IsUnguarded(app, lib, command, s, r)
  {
    hide IsOwnCreate, Told, IsGoneBy;
    NothingChanged();
  }

  /** A delete that ends with its `DELETE`. */
  lemma {:induction false} DeleteEnds(
    app: App, lib: Library, command: Command, origin: string, asks: bool,
    asked: Option<CalDavResult<Option<seq<string>>>>, s: Sending, r: Sent, etag: string)
    requires command.kind.Delete? && s.after == [] && AreReads(s.before)
    requires TagFor(app, lib, command, s.before) == Some(etag)
    requires if BaseEtag(app, command).Some? then s.before == []
      else LastDid(s.before).Found? && etag == LastDid(s.before).seen.etag && command.ownCreates != []
    requires BaseEtag(app, command).None? ==> s.before != [] && IsOwn(app.urlOf(command.entityId), origin)
    requires IsChain(s.write, origin, Deletion(app.urlOf(command.entityId), etag))
    requires s.write != [] <==> IsOwn(app.urlOf(command.entityId), origin) && IsSendableTag(etag)
    requires r.Ok? ==> LastDid(s.write).Deleted? || LastDid(s.write).Missing? || FollowedSeeOther(s.write)
    requires r.Err? && r.error.failure != Unreachable && HasChange(s.write) ==> HasUnsureAnswer(s.write)
    requires s.write == [] ==> IsFailure(r, Rejected) && asked.None?
    requires s.write != [] ==>
      var last := LastResponse(s.write);
      && (asked.Some? <==> asks && IsBarredBy(last))
      && if IsDoneBy(last, DELETE_DONE) || IsGoneBy(last) then r == Ok(None)
         else IsFailure(r, Told(last, origin, VersionConflict, BarredAs(asked)))
    ensures Keeps(app, lib, command, origin, s, r) && IsTold(app, lib, command, origin, asks, asked, s, r)
    ensures BaseEtag(app, command).None? ==> IsUnguarded(app, lib, command, s, r)
  {
    hide Told, IsGoneBy, IsDoneBy, IsBarredBy, HasUnsureAnswer, HasChange, FollowedSeeOther, Leads, IsOwnCreate;
    if s.write == [] {
      NothingChanged();
    } else {
      SendableIsTag(etag);
    }
  }

  lemma {:induction false} SendableIsTag(etag: string)
    ensures IsSendableTag(etag) ==> IsEntityTag(etag)
  {
  }

  lemma {:induction false} FoundIsNotGone(hops: seq<Hop>, origin: string, body: Bodies)
    requires hops != [] && AreLawful(hops, body) && Outcome(hops, origin, {200}, None).Ok?
    ensures !IsGoneBy(LastResponse(hops))
  {
    OutcomeIsTold(hops, origin, {200}, None, body);
  }

  lemma {:induction false} DoneIsNotChanged(response: Response)
    ensures IsDoneBy(response, PUT_DONE) ==> !IsChangedBy(response)
  {
  }

  // ---- Sending

  class WriteTransport {
    const client: Client
    const app: App
    const lib: Library
    /** Whether the writer has `getPrivileges`. */
    const asks: bool

    constructor (client: Client, app: App, lib: Library, asks: bool)
      ensures this.client == client && this.app == app && this.lib == lib && this.asks == asks
    {
      this.client, this.app, this.lib, this.asks := client, app, lib, asks;
    }

    /** `settled`: the object of a write that is done; the etag is read back when none was sent. */
    method Settled(written: CalDavObject) returns (settled: CalDavObject, ghost after: seq<Hop>)
      requires client.server.Valid()
      modifies client.server
      ensures client.server.Valid() && client.server.trace == old(client.server.trace) + after && AreReads(after)
      ensures settled == written || IsCopyOf(settled, LastDid(after))
      ensures IsHonest(written, client.server.body) ==> IsHonest(settled, client.server.body)
      ensures written.etag.Some? ==> settled == written && after == []
      ensures written.etag.None? && LastDid(after).Found? ==> IsCopyOf(settled, LastDid(after))
    {
      settled, after := written, [];
      if written.etag.None? {
        var read;
        read, after := client.GetObject(written.url);
        if read.Ok? {
          settled := read.value;
        }
      }
    }

    /** `refused`: a bare 403 is final only when the server lists no privilege to write. */
    method Refuse(error: CalDavError)
      returns (r: Sent, ghost asked: Option<CalDavResult<Option<seq<string>>>>)
      requires client.server.Valid()
      modifies client.server`objects
      ensures client.server.Valid()
      ensures asked.Some? <==> asks && IsBareForbidden(error)
      ensures r.Err? && r.error.caused == error
      ensures r.error.failure == if ListsNoWritePrivilege(asked) then Rejected else Classify(error)
    {
      asked := None;
      if IsBareForbidden(error) && asks {
        var answer := client.server.Privileges();
        asked := Some(answer);
        var held := if answer.Ok? then answer.value else None;
        if held.Some? && !AllowsWriting(held.value) {
          return Err(WriteError(Rejected, error)), asked;
        }
      }
      r := Fail(error);
    }

    static function Fail(error: CalDavError): Sent {
      Err(WriteError(Classify(error), error))
    }

    /** A repeated create whose address is taken: done only when the object there holds the same lines. */
    method Repeated(address: Url, ics: string, taken: CalDavError) returns (r: Sent, ghost seen: seq<Hop>)
      requires client.server.Valid()
      modifies client.server
      ensures client.server.Valid() && client.server.trace == old(client.server.trace) + seen
      ensures AreReads(seen) && IsChain(seen, client.origin, Reading(address))
      ensures r.Ok? ==> LastDid(seen).Found? && SameLines(lib, LastDid(seen).seen.data, ics)
      ensures r.Ok? ==> r.value.Some? && IsCopyOf(r.value.value, LastDid(seen))
      ensures LastDid(seen).Found? ==> IsComparison(lib, ics, LastDid(seen).seen.data, r)
      ensures IsOwn(address, client.origin) && Classify(taken) == Taken && !IsBareForbidden(taken) ==>
        IsToldOfTaken(lib, ics, seen, client.origin, r)
      ensures IsHonestSent(r, client.server.body)
    {
      var existing;
      existing, seen := client.GetObject(address);
      if seen != [] && existing.Err? {
        ReadIsTold(seen, client.origin, client.server.body, existing.error);
      }
      hide Told, AreLawful, Outcome, SameLines;
      match existing
      case Ok(theirs) =>
        if UidOf(lib, ics).Some? && UidOf(lib, ics) == UidOf(lib, theirs.data) {
          if SameLines(lib, theirs.data, ics) {
            r := Ok(Some(theirs));
          } else {
            r := Fail(Plain(Conflict));
          }
        } else {
          r := Fail(Plain(InvalidArgument));
        }
      case Err(error) =>
        if error.code != NotFound {
          r := Fail(error);
        } else {
          ghost var asked;
          r, asked := Refuse(taken);
        }
    }

    /** What `send` makes of an answered or failed `PUT`. */
    method Conclude(written: CalDavResult<CalDavObject>)
      returns (r: Sent, ghost after: seq<Hop>, ghost asked: Option<CalDavResult<Option<seq<string>>>>)
      requires client.server.Valid()
      modifies client.server
      ensures client.server.Valid() && client.server.trace == old(client.server.trace) + after && AreReads(after)
      ensures IsConcluded(written, r, after, asks, asked)
      ensures r.Ok? && IsHonest(written.value, client.server.body) ==> IsHonestSent(r, client.server.body)
    {
      after, asked := [], None;
      if written.Ok? {
        var settled;
        settled, after := Settled(written.value);
        r := Ok(Some(settled));
      } else {
        r, asked := Refuse(written.error);
      }
    }

    method CreateAt(command: Command, address: Url)
      returns (r: Sent, ghost s: Sending, ghost asked: Option<CalDavResult<Option<seq<string>>>>)
      requires client.server.Valid() && command.kind.Create? && IsSafeEntityId(command.entityId)
      requires AddressOf(app, command) == Some(address)
      modifies client.server
      ensures client.server.Valid() && client.server.trace == old(client.server.trace) + All(s)
      ensures Keeps(app, lib, command, client.origin, s, r)
      ensures IsTold(app, lib, command, client.origin, asks, asked, s, r)
      ensures FollowedSeeOther(s.write) || IsHonestSent(r, client.server.body)
    {
      hide IsLawful, SameLines, IsComparison, Outcome, IsSafeEntityId, IsBareForbidden, HasUnsureAnswer, HasChange;
      hide FollowedSeeOther, LeavesChangeOpen, AreLawful, Leads, IsHonest, IsCopyOf, IsToldOfTaken, Told, Classify;
      hide IsObjectOf, IsDoneBy, IsChangedBy, IsBarredBy;
      hide MustWrite, IsConcluded, ObjectOf;
      var ics := app.toIcs(command);
      var created;
      ghost var write, after;
      created, write := client.CreateObject(address, ics);
      assert write != [] <==> MustWrite(app, lib, command, client.origin, []) by {
        CreateMustWrite(app, lib, command, client.origin, address);
      }
      CreateEnds(write, created, client.origin, ics, client.server.body);
      if created.Err? && created.error.code == AlreadyExists {
        r, after := Repeated(address, ics, created.error);
        asked := None;
        s := Sending([], write, after);
      } else {
        r, after, asked := Conclude(created);
        s := Sending([], write, after);
        ConcludedIsTold(app, lib, command, client.origin, asks, asked, s, r, created, client.server.body);
        IsConcludedSo(created, r, after, asks, asked);
      }
    }

    method SendCreate(command: Command)
      returns (r: Sent, ghost s: Sending, ghost asked: Option<CalDavResult<Option<seq<string>>>>)
      requires client.server.Valid() && command.kind.Create?
      modifies client.server
      ensures client.server.Valid() && client.server.trace == old(client.server.trace) + All(s)
      ensures Keeps(app, lib, command, client.origin, s, r)
      ensures IsTold(app, lib, command, client.origin, asks, asked, s, r)
      ensures FollowedSeeOther(s.write) || IsHonestSent(r, client.server.body)
    {
      var address := app.objectUrl(app.calendarUrl(command), command.entityId);
      if !IsSafeEntityId(command.entityId) || address.None? {
        return Fail(Plain(InvalidArgument)), Sending([], [], []), None;
      }
      r, s, asked := CreateAt(command, address.value);
    }

    method SendUpdate(command: Command)
      returns (r: Sent, ghost s: Sending, ghost asked: Option<CalDavResult<Option<seq<string>>>>)
      requires client.server.Valid() && command.kind.Update?
      modifies client.server
      ensures client.server.Valid() && client.server.trace == old(client.server.trace) + All(s)
      ensures Keeps(app, lib, command, client.origin, s, r)
      ensures IsTold(app, lib, command, client.origin, asks, asked, s, r)
      ensures FollowedSeeOther(s.write) || IsHonestSent(r, client.server.body)
      ensures BaseEtag(app, command).None? ==> IsUnguarded(app, lib, command, s, r)
    {
      hide IsLawful, SameLines, IsOwnCreate, Outcome, IsSafeEntityId, IsBareForbidden, HasUnsureAnswer;
      hide LeavesChangeOpen, AreLawful, Leads, IsHonest, IsObjectOf, Told, IsDoneBy, IsBarredBy;
      var etag := BaseEtag(app, command);
      if etag.None? {
        return Fail(Plain(Conflict)), Sending([], [], []), None;
      }
      hide MustWrite, IsConcluded, ObjectOf;
      var updated;
      ghost var write, after;
      updated, write := client.UpdateObject(app.urlOf(command.entityId), app.toIcs(command), etag.value);
      assert write != [] <==> MustWrite(app, lib, command, client.origin, []) by {
        UpdateMustWrite(app, lib, command, client.origin, etag.value);
      }
      if updated.Err? && write != [] {
        FinalIsOpenIfFinal(write, client.origin, PUT_DONE, Conflict, client.server.body);
        ErrorOfObject(Outcome(write, client.origin, PUT_DONE, Some(Conflict)), app.toIcs(command));
      }
      r, after, asked := Conclude(updated);
      s := Sending([], write, after);
      ConcludedIsTold(app, lib, command, client.origin, asks, asked, s, r, updated, client.server.body);
      IsConcludedSo(updated, r, after, asks, asked);
    }

    /** A delete with the etag it is based on, or with the one just read of this device's own create. */
    method DeleteVersion(url: Url, etag: string)
      returns (r: Sent, ghost write: seq<Hop>, ghost asked: Option<CalDavResult<Option<seq<string>>>>)
      requires client.server.Valid()
      modifies client.server
      ensures client.server.Valid() && client.server.trace == old(client.server.trace) + write
      ensures IsChain(write, client.origin, Deletion(url, etag))
      ensures write != [] <==> IsOwn(url, client.origin) && IsSendableTag(etag)
      ensures r.Ok? ==> r.value.None? && (LastDid(write).Deleted? || LastDid(write).Missing? || FollowedSeeOther(write))
      ensures r.Err? && r.error.failure != Unreachable && HasChange(write) ==> HasUnsureAnswer(write)
      ensures write == [] ==> IsFailure(r, Rejected) && asked.None?
      ensures write != [] ==>
        var last := LastResponse(write);
        && (asked.Some? <==> asks && IsBarredBy(last))
        && if IsDoneBy(last, DELETE_DONE) || IsGoneBy(last) then r == Ok(None)
           else IsFailure(r, Told(last, client.origin, VersionConflict, BarredAs(asked)))
    {
      hide IsLawful, HasUnsureAnswer, LeavesChangeOpen, AreLawful, Leads, Told, IsDoneBy, IsBarredBy, IsGoneBy, Outcome;
      asked := None;
      var deleted;
      deleted, write := client.DeleteObject(url, etag);
      if deleted.Err? && write != [] {
        FinalIsOpenIfFinal(write, client.origin, DELETE_DONE, Conflict, client.server.body);
      }
      if deleted.Err? && deleted.error.code != NotFound {
        r, asked := Refuse(deleted.error);
      } else {
        r := Ok(None);
      }
      if write != [] {
        DeleteIsTold(write, client.origin, asks, asked, r, client.server.body);
      }
    }

    /** Reads the object of a delete without an etag: the tag of this device's own create, or how the command ends. */
    method ReadOwnCreate(command: Command)
      returns (etag: Option<string>, early: Sent, ghost before: seq<Hop>)
      requires client.server.Valid() && command.kind.Delete?
      requires BaseEtag(app, command).None? && command.ownCreates != []
      modifies client.server
      ensures client.server.Valid() && client.server.trace == old(client.server.trace) + before && AreReads(before)
      ensures etag == OwnTag(app, lib, command, before)
      ensures etag.Some? ==> LastDid(before).Found? && etag == Some(LastDid(before).seen.etag)
      ensures etag.None? ==> IsToldOfNothing(app, lib, command, client.origin, before, early)
      ensures etag.None? && early.Ok? ==> early.value.None? && LastDid(before).Missing?
      ensures before != [] <==> IsOwn(app.urlOf(command.entityId), client.origin)
    {
      hide IsLawful, SameLines, IsOwnCreate, Outcome, AreLawful, Leads, IsHonest, Told, IsGoneBy;
      var url := app.urlOf(command.entityId);
      var existing;
      existing, before := client.GetObject(url);
      etag := None;
      match existing
      case Err(error) =>
        if before != [] {
          ReadIsTold(before, client.origin, client.server.body, error);
        } else {
          NothingSentIsFinal(error);
        }
        early := if error.code == NotFound then Ok(None) else Fail(error);
      case Ok(theirs) =>
        ReadObject(before, client.origin);
        if IsOwnCreate(app, lib, command, theirs.data) {
          etag := theirs.etag;
        }
        early := Fail(Plain(Conflict));
    }

    method SendDelete(command: Command)
      returns (r: Sent, ghost s: Sending, ghost asked: Option<CalDavResult<Option<seq<string>>>>)
      requires client.server.Valid() && command.kind.Delete?
      modifies client.server
      ensures client.server.Valid() && client.server.trace == old(client.server.trace) + All(s)
      ensures Keeps(app, lib, command, client.origin, s, r) && (r.Ok? ==> r.value.None?)
      ensures IsTold(app, lib, command, client.origin, asks, asked, s, r)
      ensures BaseEtag(app, command).None? ==> IsUnguarded(app, lib, command, s, r)
    {
      hide IsLawful, SameLines, IsOwnCreate, Outcome, HasUnsureAnswer, AreLawful, Leads, IsHonest, Told, IsGoneBy;
      hide IsDoneBy, IsBarredBy, IsToldOfNothing, IsSendableTag, LeavesChangeOpen, HasChange, FollowedSeeOther;
      var etag := BaseEtag(app, command);
      ghost var before, write := [], [];
      if etag.None? && command.ownCreates != [] {
        var early;
        etag, early, before := ReadOwnCreate(command);
        if etag.None? {
          NothingWrittenEnds(app, lib, command, client.origin, asks, before, early);
          return early, Sending(before, [], []), None;
        }
      }
      if etag.None? {
        NoEtagEnds(app, lib, command, client.origin, asks, Fail(Plain(Conflict)));
        return Fail(Plain(Conflict)), Sending([], [], []), None;
      }
      r, write, asked := DeleteVersion(app.urlOf(command.entityId), etag.value);
      s := Sending(before, write, []);
      DeleteEnds(app, lib, command, client.origin, asks, asked, s, r, etag.value);
    }

    /**
     * `send`. Whatever other devices write between its requests, a command sends at most one write and
     * what redirects make of it: a create where nothing was, a change or deletion of the version
     * `etagOf` names, or a deletion of this device's own create as it was just read. Success means
     * that it happened unless a 303 was followed; a final failure hides it only as
     * `HasUnsureAnswer` says; and what the queue is told is read off the last responses.
     */
    method Send(command: Command)
      returns (r: Sent, ghost s: Sending, ghost asked: Option<CalDavResult<Option<seq<string>>>>)
      requires client.server.Valid()
      modifies client.server
      ensures client.server.Valid() && client.server.trace == old(client.server.trace) + All(s)
      ensures AreLawful(All(s), client.server.body) && Keeps(app, lib, command, client.origin, s, r)
      ensures IsTold(app, lib, command, client.origin, asks, asked, s, r)
      ensures FollowedSeeOther(s.write) || IsHonestSent(r, client.server.body)
      ensures forall i, j :: 0 <= i < j < |All(s)| ==> !(Mutates(All(s)[i].did) && Mutates(All(s)[j].did))
      ensures forall i :: 0 <= i < |s.write| ==> IsAllowed(app, lib, command, s.before, s.write[i].did)
      ensures BaseEtag(app, command).None? && !command.kind.Create? ==> IsUnguarded(app, lib, command, s, r)
    {
      hide IsUnguarded, IsAllowed, IsSending, IsDone, IsLawful, FollowedSeeOther, IsTold;
      match command.kind {
        case Create => r, s, asked := SendCreate(command);
        case Update => r, s, asked := SendUpdate(command);
        case Delete => r, s, asked := SendDelete(command);
      }
      TailIsLawful(old(client.server.trace), All(s), client.server.body);
      OneChange(app, lib, command, client.origin, client.server.body, s);
      AllAreLawful(s, client.server.body);
      forall i | 0 <= i < |s.write|
        ensures IsAllowed(app, lib, command, s.before, s.write[i].did)
      {
        ChangeIsAllowed(app, lib, command, client.origin, client.server.body, s, i);
      }
    }

    /** `fetchServer`: the object as it is now, or none when it is gone. */
    method FetchServer(entityId: string) returns (r: Sent, ghost hops: seq<Hop>)
      requires client.server.Valid()
      modifies client.server
      ensures client.server.Valid() && client.server.trace == old(client.server.trace) + hops
      ensures AreReads(hops) && IsChain(hops, client.origin, Reading(app.urlOf(entityId)))
      ensures hops == [] ==> IsFailure(r, Rejected) && !IsOwn(app.urlOf(entityId), client.origin)
      ensures r == Ok(None) <==> hops != [] && IsGoneBy(LastResponse(hops))
      ensures r == Ok(None) ==> LastDid(hops).Missing?
      ensures LastDid(hops).Found? <==> r.Ok? && r.value.Some?
      ensures LastDid(hops).Found? ==> IsCopyOf(r.value.value, LastDid(hops)) && IsHonestSent(r, client.server.body)
      ensures hops != [] && r.Err? ==> IsToldOfRead(hops, client.origin, r)
    {
      hide Told, Outcome, AreLawful, IsHonest, IsCopyOf, IsGoneBy, Leads;
      var read;
      read, hops := client.GetObject(app.urlOf(entityId));
      if hops == [] {
        NothingSentIsFinal(read.error);
      } else if read.Err? {
        ReadIsTold(hops, client.origin, client.server.body, read.error);
      } else {
        FoundIsNotGone(hops, client.origin, client.server.body);
      }
      match read
      case Ok(held) => r := Ok(Some(held));
      case Err(error) => r := if error.code == NotFound then Ok(None) else Fail(error);
    }

    /** Any run of a queue: commands sent in any order, any number of times, while others write. */
    method AnyRun(commands: seq<Command>, rounds: nat)
      requires client.server.Valid() && client.server.trace == []
      modifies client.server
      ensures client.server.Valid() && IsGuarded(app, lib, commands, client.origin, client.server.trace)
    {
      for round := 0 to rounds
        invariant client.server.Valid() && IsGuarded(app, lib, commands, client.origin, client.server.trace)
      {
        client.server.OthersWrite();
        var k: int := *;
        if 0 <= k < |commands| {
          ghost var was := client.server.trace;
          var r, s, asked := Send(commands[k]);
          GuardedGrows(app, lib, commands, k, client.origin, client.server.body, was, s);
        }
      }
    }
  }
}
