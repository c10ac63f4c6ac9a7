# A verified model of the CalDAV, DKIM and small client cores

This project models the parts of the packages whose correctness is hardest to see by reading, and proves what
their documentation promises. To verify: `dafny verify dfyconfig.toml` (Dafny 4.11).

| files | what they model |
|---|---|
| `Xml*.dfy` | the WebDAV XML reader and writer of `caldav/xml.ts`: tokenizer, namespace scopes, entities, prefixes |
| `Sync*.dfy`, `CalDavCache.dfy`, `CalDavSync.dfy` | offline reading: the replication engine of `caldav/sync.ts` over the store of `caldav/indexeddb.ts` |
| `CalDavServer.dfy`, `CalDavRequest.dfy`, `CalDavClient.dfy`, `CalDavWrite.dfy`, `IcalLines.dfy` | offline writing: a server that other devices change, one request and the redirects it follows, the object calls, the write transport |
| `CalDavFeed.dfy` | splitting a subscription feed |
| `MailLines.dfy`, `Octets.dfy`, `Dkim*.dfy` | the DKIM verifier: which octets reach the hash and the signature check |
| `Mailbox*.dfy` | the mailbox parser and printer of `email/address.ts` |
| `JsonRequest.dfy`, `PushStore.dfy`, `RateText.dfy`, `RateFallback.dfy` | retries, the capped subscription store, exchange rates |
| `Wrappers.dfy`, `Scan.dfy`, `JsText.dfy` | option and result types, and the string functions of the language |

## How it is built

Every loop of the source that updates variables is a method, proved equal to a function that says what the loop
computes; what the source promises is then proved about that function. Objects that change in place (the cached
store, the sync engine, the client, the write transport, the prefix table, the push store) are classes, and
byte buffers are arrays. Servers and other devices are steps that may do anything their standard allows: a world
that changes at every instant (`SyncModel.World`), a server that other devices write to before each request
(`CalDavServer.Server`), an endpoint that may lose any answer (`JsonRequest.Environment`).

What is assumed of the other side is written out as a predicate, and only there:

- `SyncModel.Lawful`: a change marker is never reused, an entity tag names one body, an object lies in one calendar.
- `CalDavServer.IsTruthful`: a server claims success only for a write it made, refuses (4xx but 408, or a UID clash
  by name) or redirects (but by 303) only a write it did not make, and gives an entity tag only for the text it names.
  After a 303, a redirect that the runtime hides, or a lost answer, it may have acted or not.
- `IcalLines.IsFaithful`: writing a property as JSON is injective.
- `JsonRequest.IsHonest`: a server acts on a request it accepts, and not on one it refuses (4xx) or redirects, but for
  the same two redirects.

## Where the code does less than its documentation says

- `parseXml(serializeXml(e))` is documented to give back an equal tree. The reader trims the name of an end tag with
  `trimEnd`, and the name pattern allows characters such as U+3000 that `trimEnd` strips, so an element with children
  whose name ends in one is written and then refused. `XmlTheorems.RoundTrip` states exactly when the promise holds and
  `XmlTheorems.RoundTripFailsForTrailingSpaceName` gives a tree for which it does not.
- `parseXml` is documented to skip comments. It looks for the end of a comment from its first character, so a comment
  whose text begins with `>` or `->`, which section 2.5 of XML 1.0 allows, ends there and the rest of it becomes text.
  `XmlDocument.CommentIsSkippedExactly` states exactly when a comment is skipped, `XmlDocument.EarlyCommentIsText` what
  happens to every other.
- `deleteTagValue` is documented to produce what section 3.7 of RFC 6376 hashes. The section deletes the value of `b=`
  with all surrounding white space; the code keeps white space that follows the value.
  `DkimTagList.DeletedAsStandard` states exactly when the two agree, `DkimSignature.TrailingBlankStays` is a complete
  signature field on which they do not.
- A 303 turns a `PUT` or `DELETE` into a `GET` whose 200 is then read as the success of the write. An update that was
  not carried out can so be reported as done, with the new text under another object's entity tag
  (`CalDavClient.SuccessWithoutChange`), and one that was carried out as a conflict or as gone
  (`CalDavClient.ChangeWithoutSuccess`). `CalDavRequest.SuccessProvesTheChange` shows that success is to be believed
  exactly when no 303 was followed.
- A write is reported as a final refusal although the server may have carried it out after a 303 and for an answer too
  large to read. `CalDavWrite.FinalFailuresHideNothing` shows that these are the only such failures, and
  `CalDavWrite.WriteTransport.Send` promises the rest for every run.
- `sendJson` reports every redirect as a failure that is not uncertain, also a 303 and a redirect that the browser
  hides, after which the server may have acted. `JsonRequest.OutcomeProves` states exactly which outcomes are to be
  believed, `JsonRequest.SeeOtherHidesTheAction` is an exchange for which the outcome is wrong.

## Model

| member | source | states |
|---|---|---|
| XmlDocument.DocumentIsRead | caldav/xml.ts:283-467 | every document, however its text, attributes, namespace declarations, comments, instructions and CDATA sections are spelled, is read as exactly the tree it means when it is within the size limit, the depth limit and the rules of namespaces, and is refused otherwise |
| XmlDocument.CDataIsText | caldav/xml.ts:345-351 | in any element, a CDATA section and the same text spelled with references read alike |
| XmlDocument.OpensElement | caldav/xml.ts:422-467 | a start tag opens the element it spells, and is refused exactly when a name repeats, a declaration is not allowed, a prefix is not bound, two attributes have one expanded name, or there is no room for it |
| XmlDocument.UnprefixedIsInNone | caldav/xml.ts:452-454 | an attribute without a prefix is in no namespace in any scope, with a default declaration or without |
| XmlDocument.CommentIsSkippedExactly | caldav/xml.ts:343-344 | a comment ends where it should exactly when it begins with neither `>` nor `->` |
| XmlDocument.EarlyCommentIsText | caldav/xml.ts:343-344 | every comment that does begin so ends early, and the rest of it becomes text |
| XmlDocument.DoctypeIsForbidden | caldav/xml.ts:352-356 | a markup declaration before the root is refused, whatever stands before and after it |
| XmlDocument.OtherEntityIsForbidden | caldav/xml.ts:176-182 | an entity that is not one of the five is refused, after any text |
| XmlSpelling.BitsDecode | caldav/xml.ts:151-188 | characters, the five entities, and decimal and hexadecimal references with leading zeros decode to the text they spell |
| XmlSpelling.AttributesAreRead | caldav/xml.ts:385-421 | attributes in either quotes with any white space around their parts read as the names and values they spell, in order |
| XmlTheorems.RoundTrip | caldav/xml.ts:658-709 | parsing a serialized tree gives that tree back exactly when it fits the limits, its texts are non-empty and never adjacent, its attributes have distinct expanded names, and no element with children has a name that ends in white space of the language |
| XmlTheorems.RoundTripFailsForTrailingSpaceName | caldav/xml.ts:357-364 | a tree with valid names and text that is serialized and then refused as malformed |
| XmlTheorems.ReadWriteRead | caldav/xml.ts:658-709 | a tree that was read is never refused for its names when written, and when its characters can be written, reading that text gives the same tree exactly when it is within the size limit |
| XmlTheorems.SerializesExactly | caldav/xml.ts:653-709 | a tree is written exactly when its names are valid and no declarations, and its texts, values and namespaces have only characters of XML; a bad name is reported before a bad character |
| XmlRoundTrip.RunElement | caldav/xml.ts:693-704 | reading a written element attaches exactly that element to what is open and goes on after it |
| XmlRoundTrip.RunChildren | caldav/xml.ts:693-704 | reading written children adds exactly those children, in order, to the open element |
| XmlOpenElement.OpenWritten | caldav/xml.ts:375-467 | a written start tag opens the element it was written from: same name, same attributes, the declarations put in scope |
| XmlStartTag.ReadWrittenAttributes | caldav/xml.ts:375-440 | every written attribute list reads back with its names, its values and the form of the tag's end |
| XmlPrefixes.PrefixesDiffer | caldav/xml.ts:681-687 | the prefixes invented for a document are pairwise different |
| XmlPrefixes.DecimalIsInjective | caldav/xml.ts:684 | two counters written in decimal are equal only when the counters are |
| XmlPrefixes.CollectNames | caldav/xml.ts:667-690 | once collected, every name of the tree is valid and its namespace has a prefix |
| XmlEscaping.DecodeUndoesEscape | caldav/xml.ts:151-188 | decoding entities undoes both escapers on every text |
| XmlEscaping.EscapedIsInert | caldav/xml.ts:624-651 | escaped text holds no character that could end an attribute or open markup, and none that the normalization of another reader changes |
| XmlAccepted.AcceptedIsGood | caldav/xml.ts:299-467 | an accepted document fits its size and depth limits, and its tree has no empty or adjacent texts, no two attributes of one expanded name, only writable names, and no element with children whose name an end tag cannot close |
| XmlAccepted.LookupIsScopeMap | caldav/xml.ts:238-251 | walking the open elements for a prefix finds what a scope map copied at every element would hold |
| XmlAccepted.DeclarationsAreProper | caldav/xml.ts:267-281 | no accepted declaration binds the namespace of declarations, or a prefix to the empty namespace |
| XmlPass.Decode | caldav/xml.ts:151-188 | the loop over offsets decodes left to right, and the first bad entity is the error |
| XmlPass.Lookup | caldav/xml.ts:238-251 | the walk from the innermost element outwards returns the first declaration it meets |
| XmlPass.ResolveAll | caldav/xml.ts:448-460 | attributes are resolved in order, and a repeated expanded name is refused |
| XmlPass.ReadTag | caldav/xml.ts:385-421 | the loop over a start tag reads every attribute, refusing repeats and malformed ones |
| XmlPass.ReadTurn | caldav/xml.ts:333-368 | one pass over the text consumes at least one character and does what its markup asks |
| XmlPass.Tokenize | caldav/xml.ts:299-467 | the one-pass tokenizer computes the recursive reader, errors included |
| XmlPrefixTable.PrefixTable.AddElement | caldav/xml.ts:667-690 | filling the map while walking the tree gives the collected prefixes, or refuses the same trees |
| XmlPrefixTable.SerializeXml | caldav/xml.ts:664-709 | the serializer with its mutable map writes what the pure one does, and refuses names before characters |
| SyncEngine.AnyRun | caldav/sync.ts:204-252 | over every run of refreshes and loads, with the server changing between any two requests, a stored calendar whose synced marker is the server's current one holds every listed object with the server's etag and body and nothing else |
| SyncEngine.RefreshAgain | caldav/sync.ts:204-232 | after an answered refresh without failures of a server that stands still, everything is in step, and the next refresh writes nothing when markers are present |
| SyncEngine.CalDavSync.Refresh | caldav/sync.ts:204-232 | one run keeps the copy honest; it is answered exactly when the listing is; the calendars whose marker moved are asked for in order until one goes unanswered; those reported as failed are exactly those whose call failed or whose answer left out an object, every other is in step; the counts are the objects put and dropped |
| SyncEngine.CalDavSync.SyncAll | caldav/sync.ts:215-230 | the loop over the listing brings every calendar it did not fail into step and stops only for want of an answer |
| SyncEngine.CalDavSync.SyncObjects | caldav/sync.ts:157-202 | one synchronisation fails exactly when its last call does, with that call's failure; otherwise it puts what came, drops what is no longer listed and counts both; it keeps every record honest, moves the marker only when nothing asked for was left out, and changes no other calendar's objects |
| SyncEngine.CalDavSync.Fetch | caldav/sync.ts:171-192 | the calendar is listed once, objects are asked for exactly at the addresses whose etag differs, and the fetch fails exactly when one of its calls does; it is incomplete exactly when the answer left out an asked object |
| SyncEngine.CalDavSync.LoadCompleted | caldav/sync.ts:239-244 | a load succeeds exactly for a stored calendar whose calls all succeed and leave nothing out; while the server stands still it leaves the calendar in step with its completed objects |
| SyncCalls.ChangedIsFilter | caldav/sync.ts:187-191 | of a full listing exactly the objects whose etag differs are put, each as often as it is listed |
| SyncCalls.CallsForOne | caldav/sync.ts:215-230 | what the calls for one calendar add to a run: one opening, and one failure when the last fails or leaves something out |
| SyncProofs.CompleteIsInStep | caldav/sync.ts:193-201 | applying a complete difference leaves the calendar in step with the instant it was fetched at |
| SyncProofs.PartialStaysInStep | caldav/sync.ts:195-199 | applying a difference with objects left out does not break a calendar that was in step |
| SyncProofs.SyncedRecordIsHonest | caldav/sync.ts:197-200 | the marker stored after a complete synchronisation is honest whatever changed while it ran |
| SyncProofs.InvariantAfterChanges | caldav/sync.ts:157-202 | the invariant of every run survives one application of changes |
| SyncProofs.ListedIsHonest | caldav/sync.ts:209-214 | records made from a listing keep the markers and stay honest |
| SyncProofs.HonestLater | caldav/sync.ts:150-202 | an honest record stays honest as time passes and the server changes |
| IndexedDbCache.CalDavCache.ReplaceCalendars | caldav/indexeddb.ts:210-221 | calendars that are gone lose their records and objects, the others keep their objects and get the new records |
| IndexedDbCache.CalDavCache.ApplyChanges | caldav/indexeddb.ts:222-230 | the removed objects go, the changed ones are put, and the calendar's record is stored |
| CalDavWrite.WriteTransport.Send | caldav/write.ts:396-508 | whatever others write between its requests, a command sends reads and at most one write with the redirects it follows, and changes the server at most once; a write goes out exactly when address, tag and text can be sent; what the queue is told is read off the last responses by the table of the module; success means that the change happened, or was found made, unless a 303 was followed; a final failure hides a change only when a 303 answered or the answer was too large |
| CalDavWrite.WriteTransport.SendCreate | caldav/write.ts:397-461 | a create only creates; 200, 201 and 204 are success with the object as written or read back, 412 is decided by what stands at the address, other refusals are final, and everything else is a later try |
| CalDavWrite.WriteTransport.Repeated | caldav/write.ts:425-458 | a taken address is success exactly for the same lines, a conflict for another text of the same UID, a refusal otherwise |
| CalDavWrite.WriteTransport.SendUpdate | caldav/write.ts:484-507 | an update only replaces the version `etagOf` names; 412 is a conflict, 404 and 410 are gone, other refusals are final, and everything else is a later try; without an etag no request is sent and the failure is a conflict |
| CalDavWrite.WriteTransport.SendDelete | caldav/write.ts:462-501 | a delete asks only for the version `etagOf` names, or for this device's own create as it was just read; 404 and 410 are success, 412 is a conflict, other refusals are final, and everything else is a later try |
| CalDavWrite.WriteTransport.ReadOwnCreate | caldav/write.ts:464-492 | a delete without an etag reads the object: gone is success, this device's own create gives its tag, anything else is a conflict, and a failed read is told by the table |
| CalDavWrite.WriteTransport.DeleteVersion | caldav/write.ts:494-501 | a delete that deletes or finds nothing is done; any other failure is passed on, and when final hides the deletion only after a 303 or an answer too large |
| CalDavWrite.WriteTransport.Settled | caldav/write.ts:360-373 | an object without an entity tag is read back, and the copy is used when the read finds it; an honest object stays honest, and a failed read-back never undoes a write |
| CalDavWrite.WriteTransport.Refuse | caldav/write.ts:381-393 | privileges are asked for exactly after a 403 without a condition; the failure becomes final exactly when the answer is a list that holds no privilege to write |
| CalDavWrite.WriteTransport.FetchServer | caldav/write.ts:510-515 | the current object is returned, gone is reported exactly when the address that answered says so, and any other failure is told by the table |
| CalDavWrite.WriteTransport.AnyRun | caldav/write.ts:396-508 | in every run of any queue, each change at the server ends the redirects of one command's own write and is one that command was allowed to make, so no other device's edit is lost |
| CalDavWrite.FinalFailuresHideNothing | caldav/write.ts:308-341 | a failure that takes a guarded write out of the queue proves that nothing was changed exactly when no request was answered by a 303 and the answer was not too large to read |
| CalDavWrite.ChangeIsAllowed | caldav/write.ts:396-508 | each change of a command creates its text, or replaces or deletes the version with the tag it was based on; a deletion by a tag just read deletes the very text that was read when the address is the same |
| CalDavWrite.OneChange | caldav/write.ts:396-508 | a command changes the server at most once, redirects included |
| CalDavWrite.StatusTable | caldav/write.ts:93-113 | how every status, with or without a condition, is read: conflict, gone, taken, later try, refusal |
| CalDavWrite.OutcomeIsTold | caldav/write.ts:93-113 | what the client makes of any last response, redirects and lost answers included, is what the table says of it |
| CalDavWrite.GuardedGrows | caldav/write.ts:396-508 | one more command keeps every change of the run accounted for |
| CalDavServer.EntityTagAdmitsOne | caldav/client.ts:803-818 | an `If-Match` header that passed the check holds for one version only, the one it names |
| CalDavClient.Client.CreateObject | caldav/client.ts:1128-1139 | unless a 303 was followed, success is the creation of the object with that text, at the address that answered; a failure hides a creation only behind a 303 or an answer that leaves it open |
| CalDavClient.Client.UpdateObject | caldav/client.ts:1141-1150 | unless a 303 was followed, success is the replacement of the version its etag names; a failure hides one only behind a 303 or an answer that leaves it open |
| CalDavClient.Client.DeleteObject | caldav/client.ts:1152-1162 | unless a 303 was followed, success is the removal of the version its etag names, and "not found" that the address is empty |
| CalDavClient.Client.GetObject | caldav/client.ts:1114-1126 | a read changes nothing and succeeds exactly when it found an object, giving a copy with its tag only when that is one valid entity tag |
| CalDavClient.SuccessWithoutChange | caldav/client.ts:660-663 | an update answered by a 303 and a `GET` with 200: success, though nothing was changed |
| CalDavClient.ChangeWithoutSuccess | caldav/client.ts:660-663 | an update carried out and answered by a 303, whose `GET` fails with 412 or 404: a conflict or gone, though the object was changed |
| CalDavClient.ChangeIsNamed | caldav/client.ts:1128-1162 | a change under a guard is the creation, replacement or deletion of the version the guard names |
| IcalLines.SameLinesIsMultisetEquality | caldav/write.ts:249-284 | two texts have the same lines exactly when both are readable and their components and properties agree as multisets |
| IcalLines.KeyIsInjective | caldav/write.ts:265-273 | two content lines with one key are one line |
| IcalLines.SortedIsUnique | caldav/write.ts:265-284 | comparing sorted keys one by one decides equality of multisets |
| CalDavRequest.Send | caldav/client.ts:599-687 | one call follows redirects to the server's own origin as long as it may, at most one request more than that, none to an address with a login, and ends as its last response says |
| CalDavRequest.ChainAt | caldav/client.ts:609-664 | every request of a call is authorized, has the headers of the first, and is the one asked for until a 303 is followed, a `GET` without a body from then on |
| CalDavRequest.AtMostOneChange | caldav/client.ts:599-687 | one call changes the server at most once, whichever redirects it follows |
| CalDavRequest.SuccessProvesTheChange | caldav/client.ts:660-663 | the success of a write proves that it was carried out, for every honest server with these answers, exactly when no 303 was followed |
| CalDavRequest.FailureProvesNoChange | caldav/client.ts:599-687 | the end of a guarded write proves that nothing was changed exactly when no 303 was followed and the last response refuses or redirects |
| CalDavFeed.SplitFeed | caldav/client.ts:967-999 | the loops over the feed compute one event for each UID in order of first appearance, and give up exactly when they are too large together |
| CalDavFeed.EveryMemberOnce | caldav/client.ts:970-983 | every component of the feed with a UID lands in exactly one event, and no event has any other |
| CalDavFeed.UidsAre | caldav/client.ts:977-983 | UIDs are distinct across events, and every UID of the feed has its event |
| CalDavFeed.EventHolds | caldav/client.ts:986-992 | an event ends with its group in feed order; before it stand exactly the zones that a property of the group names, at any depth, each the last of its name in the feed and no two of one name |
| CalDavFeed.ZonesAreFiled | caldav/client.ts:970-976 | every zone of the feed that names itself is filed under its trimmed name, the last of a name standing, and nothing else is filed |
| CalDavFeed.TzidsAre | caldav/client.ts:1001-1007 | the names listed for a component are exactly those that the first `TZID` parameter, in any case, of some property of it or of a component inside it lists |
| CalDavFeed.GroupIs | caldav/client.ts:977-983 | a group is the components that carry its UID, in feed order |
| CalDavFeed.NamedIs | caldav/client.ts:972-979 | a UID or zone name is the first property of that name in any case, trimmed, when that is not empty |
| IcalLines.ComponentsAre | caldav/write.ts:249-252 | the list of components holds exactly what is in the tree, at any depth |
| IcalLines.FirstUidIs | caldav/write.ts:254-263 | the UID of a text is the first UID property of the first component that has one |
| DkimCoverage.MessageIsValidExactly | email/dkim-verify.ts:567-661 | a signature field of a message is valid exactly when the message is within its limits and has one reading, the field is among the first ones checked and meets the standard over all the other lines, and the check of its octets with the key of its domain and selector is true |
| DkimCoverage.ValidExactly | email/dkim-verify.ts:664-942 | one signature reaches its check exactly when it is read, may be used, names From, has a usable key and the stated body hash, over exactly the octets of section 3.7 of RFC 6376; it is valid exactly when that check is true, and a false check and a check that fails are told apart |
| DkimInvariance.StorageMakesNoDifference | email/dkim-verify.ts:567-661 | a message gets the same verdicts whether its lines are stored with CRLF or with LF |
| DkimInvariance.RelaysMakeNoDifference | email/dkim-verify.ts:567-661 | a field a relay puts on top under a plainly written name, on one line or folded over any number, changes no verdict, unless a signature asks for its name more often than the message had it |
| DkimInvariance.FoldedIsOneField | email/dkim-message.ts:359-377 | the lines of a folded field unfold into that one field, whatever follows |
| DkimInvariance.BValueMakesNoDifference | email/dkim-verify.ts:766-788 | whatever non-empty value `b=` holds, the octets that are checked are the same |
| DkimInvariance.SameSelection | email/dkim-headers.ts:219-309 | under a harmless line selection gives the same fields, or refuses for the same reason |
| DkimInvariance.SameParsed | email/dkim-signature.ts:126-228 | what a signature says does not depend on the value of `b=` |
| DkimCoverage.CheckedCoversFrom | email/dkim-verify.ts:664-942 | a signature that reaches its check is valid exactly when the check is true; it and its key may be used, the body hash is the stated one, and every line that anyone could read as From, of which there is one, is among the signed lines |
| DkimCoverage.FromLineIsTaken | email/dkim-headers.ts:262-309 | a selection that asks for From takes every line that is, or could be read as, From |
| DkimCoverage.SignedBodyIs | email/dkim-verify.ts:716-742 | `l=` leaves in the first octets of the canonical body, all of them when it counts more |
| DkimCoverage.FieldsInOrder | email/dkim-verify.ts:772-781 | the canonical fields stand one after the other in the order asked for |
| DkimCoverage.IdentityDomainIs | email/dkim-verify.ts:943-955 | the domain of `i=` is what follows its last "@", in lower case |
| DkimStorage.RefusalOfStored | email/dkim-message.ts:331-357 | a header section of plain lines is refused only for an octet sequence inside one line, under either line ending |
| DkimStorage.ForbiddenLines | email/dkim-message.ts:265-284 | no refused sequence reaches over a line ending |
| DkimVerify.VerifyDkimSignatures | email/dkim-verify.ts:567-661 | the verifier refuses by size and line endings first, and gives each signature field its verdict over all the other lines, in order |
| DkimVerify.VerifyDkim | email/dkim-verify.ts:545-552 | the verdict is the first valid one, or the first of all when none is |
| DkimVerify.VerifyOneSignature | email/dkim-verify.ts:664-813 | one signature is refused by the first failing step, or checked over exactly the assembled input |
| DkimVerify.SignatureInput | email/dkim-verify.ts:766-783 | the input is the canonical signed fields in order, and the signature field without its value and without a final line ending |
| DkimVerify.SignatureLinesAre | email/dkim-verify.ts:618-625 | every field verified is a line whose trimmed name is that of a signature |
| DkimHeaders.SelectSignedHeaders | email/dkim-headers.ts:219-309 | the maps of index lists give the pairing from the bottom up, and refuse grown and disguised fields |
| DkimHeaders.OnlyHarmlessLinesGoUnseen | email/dkim-headers.ts:219-309 | a line put on top leaves the selection as it was exactly when its name is not asked for or disguised, or is one that relays add and no mention is left for |
| DkimHeaders.AddedIsRefusedOrSigned | email/dkim-headers.ts:266-279 | a line of an asked name that no relay adds is, on top of any message, refused or signed |
| DkimHeaders.AllTaken | email/dkim-headers.ts:262-279 | when the selection stands, every line of an asked name that no relay adds was taken |
| DkimHeaders.LooseHeaderNameMatch | email/dkim-headers.ts:150-175 | the search finds the first reading that is a target, exactly when there is one; leaving early never changes the answer |
| DkimPairing.PickedAre | email/dkim-headers.ts:247-260 | a line is taken exactly when it is among the lowest lines of its name, as many as the name is mentioned |
| DkimPairing.NoneTwice | email/dkim-headers.ts:247-260 | no line is taken twice |
| DkimPairing.PicksBelow | email/dkim-headers.ts:247-260 | a line on top that no mention is left for moves every pick down by one and changes none |
| DkimPairing.OversignedIsPicked | email/dkim-headers.ts:247-260 | a line on top that a mention is left for is taken |
| DkimPairing.PickFields | email/dkim-headers.ts:247-260 | popping the lists gives the pairing |
| DkimTagList.ScanUndoesPrint | email/dkim-signature.ts:53-106 | a list printed with any white space and folding scans to its tags at their exact offsets, and is refused exactly when a name repeats |
| DkimTagList.OffsetsIncrease | email/dkim-signature.ts:53-106 | of two tags the value of the first ends before the second begins |
| DkimTagList.DeleteFromList | email/dkim-signature.ts:283-289 | deleting a value leaves the text before it and after it, whatever the value was |
| DkimTagList.RescanDeleted | email/dkim-signature.ts:283-289 | scanning what is left finds the same tags with only that one empty |
| DkimTagList.DeletedAsStandard | email/dkim-signature.ts:272-289 | deleting a value gives what section 3.7 of RFC 6376 asks for exactly when no white space follows the value |
| DkimSignature.TrailingBlankStays | email/dkim-signature.ts:272-289 | a complete signature field that is read, with a blank after its `b=` value: what deletion leaves, what the standard leaves, and that they differ |
| DkimTagList.ScanTagList | email/dkim-signature.ts:53-106 | the forward scan computes the list of tags, or the first error |
| DkimTagList.DeleteTagValue | email/dkim-signature.ts:283-289 | the slices around the scanned span compute the deletion |
| DkimSignature.OnlyPresenceOfB | email/dkim-signature.ts:126-228 | of `b=` only whether it has a value decides what the field says |
| DkimSignatureText.SignatureIsRead | email/dkim-signature.ts:126-228 | a signature written as tags in any order, with any white space and folding, letters in any case and other tags among them, is read as exactly that signature |
| DkimSignatureText.CanonicalizationIsRead | email/dkim-signature.ts:248-262 | in `c=` the header's algorithm comes first and the body's second, and either is simple when it is left out |
| DkimTagList.FoldVanishes | email/dkim-signature.ts:108-124 | a line ending and the white space after it vanish from a value |
| DkimMessage.SplitUndoesStore | email/dkim-message.ts:25-66 | a stored message splits into its fields and its body, whichever line ending storage uses |
| DkimMessage.LocateStored | email/dkim-message.ts:47-66 | the header section ends after the last header line |
| DkimMessage.LocateHeaderEnd | email/dkim-message.ts:47-66 | the loop finds the first line ending that a second one follows at once |
| DkimMessage.ParseHeaders | email/dkim-message.ts:359-377 | the loop that extends the last field computes the unfolded list of fields |
| DkimForbidden.PackingsDecode | email/dkim-message.ts:166-176 | the packings of a code point are exactly the sequences of 2 to 6 octets that decode to it |
| DkimForbidden.ScanForbiddenHeaderBytes | email/dkim-message.ts:201-284 | the scan by lead octet finds something exactly when a refused octet, or a sequence that decodes to a listed code point, stands somewhere |
| DkimForbidden.RefuseHeaderLineEndings | email/dkim-message.ts:331-357 | a block is refused exactly for a CR without LF, for mixed endings, or for a hidden line break, in that order |
| DkimForbidden.SequencesDecode | email/dkim-message.ts:201-230 | the generated table holds a sequence exactly when it decodes to a listed code point |
| DkimCanonicalize.SimpleIdempotent | email/dkim-canonicalize.ts:72-92 | the simple body algorithm changes nothing the second time |
| DkimCanonicalize.RelaxedIdempotent | email/dkim-canonicalize.ts:72-92 | nor does the relaxed one |
| DkimCanonicalize.RelaxedAfterSimple | email/dkim-canonicalize.ts:72-92 | relaxed after simple is relaxed |
| DkimCanonicalize.BodyStorage | email/dkim-canonicalize.ts:72-92 | a body is the same under both line endings |
| DkimCanonicalize.RelaxedAlike | email/dkim-canonicalize.ts:134-151 | two lines relax alike exactly when their words agree and white space begins both or neither |
| DkimCanonicalize.RelaxedWords | email/dkim-canonicalize.ts:134-151 | relaxing a line keeps its words |
| DkimCanonicalize.RelaxedValue | email/dkim-canonicalize.ts:30-45 | a relaxed header value is the words of the unfolded value with one space between them |
| DkimCanonicalize.RelaxedValueIdempotent | email/dkim-canonicalize.ts:30-45 | relaxing a header value twice is relaxing it once |
| DkimCanonicalize.UnfoldJoins | email/dkim-canonicalize.ts:42 | unfolding puts the lines of a value one after the other |
| DkimCanonicalize.SplitBodyLines | email/dkim-canonicalize.ts:106-124 | the loop splits at CRLF and bare LF only |
| DkimCanonicalize.RelaxBodyLine | email/dkim-canonicalize.ts:134-151 | the loop with its pending space writes the words |
| DkimCanonicalize.CanonicalizeBody | email/dkim-canonicalize.ts:72-92 | splitting, relaxing and moving back over empty lines give the canonical body |
| MailLines.SplitUndoesJoin | email/dkim-canonicalize.ts:106-124 | splitting undoes joining for every non-empty list of lines, for CRLF and for LF |
| DkimKeys.BitLength | email/dkim-crypto.ts:165-172 | the result is the power of two just above the number, 0 for zero |
| DkimKeys.BitLengthIsUnique | email/dkim-crypto.ts:164-172 | a number has one bit length |
| DkimKeys.LengthRoundTrip | email/dkim-crypto.ts:249-258 | an encoded length reads back exactly, and a long form has no leading zero |
| DkimKeys.LengthIsMinimal | email/dkim-crypto.ts:249-258 | no encoding of the same length takes fewer octets |
| DkimKeys.WrapIsIdempotent | email/dkim-crypto.ts:190-226 | wrapping a wrapped key changes nothing |
| DkimKeys.UnwrapUndoesWrap | email/dkim-crypto.ts:190-226 | the envelope holds exactly the key that was wrapped |
| DkimKeys.EncodeDerLength | email/dkim-crypto.ts:249-258 | shifting and prepending gives the minimal octets |
| DkimKeys.EncodeDerLengthPrefixed | email/dkim-crypto.ts:240-247 | the filled buffer is tag, length and content |
| DkimKeys.Wrap | email/dkim-crypto.ts:190-226 | the filled buffers make the envelope, or the key is returned as it is |
| MailboxRoundTrip.RoundTrip | email/address.ts:253-261 | for every valid address of at most 254 characters, parsing undoes printing exactly for a missing name and for a clean name that is not empty |
| MailboxRoundTrip.ParsedIsGood | email/address.ts:170-207 | a parsed mailbox has a valid address that fits, and a clean name that is not empty, if any |
| MailboxRoundTrip.PrintedParsesAgain | email/address.ts:170-261 | printing what was parsed and parsing it again changes nothing |
| MailboxForms.WrittenIsRead | email/address.ts:170-207 | every way to write a mailbox is read as its parts: an address alone or in brackets, after nothing, a phrase without quotes or a quoted string, with any white space between |
| MailboxForms.QuotedOnlyWhenNeeded | email/address.ts:253-261 | a name is printed in quotes exactly when it needs them, and otherwise as it is |
| MailboxRoundTrip.UnescapeUndoesEscape | email/address.ts:351-384 | resolving escapes undoes escaping, and an escaped name holds no bare quote |
| MailboxRoundTrip.EscapedCloses | email/address.ts:342-349 | the closing quote of a printed name is the one that was printed |
| MailboxLists.ParseAddresses | email/address.ts:220-243 | the loop keeps the first recipient of each key and records the others; one bad entry fails the list |
| MailboxLists.KeptKeys | email/address.ts:226-241 | every key has exactly one recipient |
| MailboxLists.KeptAreFirst | email/address.ts:226-241 | a recipient is kept exactly when it is the first of its key |
| MailboxLists.SameKeyIsSameAddress | email/address.ts:232-236 | two recipients have one key exactly when their addresses differ in the case of letters alone |
| MailboxLists.ParsedInOrder | email/address.ts:230-232 | a list that parses is its entries' mailboxes, in order |
| MailboxLists.NobodyLost | email/address.ts:226-241 | every entry is kept or recorded as a repeat |
| MailboxLists.FindQuotedPrefixEnd | email/address.ts:342-349 | the loop finds the end of the quoted prefix |
| MailboxLists.FindBareQuote | email/address.ts:364-381 | the scan finds a quote that no backslash escapes |
| JsonRequest.SendJson | integrations/_json-request.ts:238-260 | attempts and elapsed time stay within the policy; the outcome reports the last answer; every answer before it asked for a repeat, for a request that is not idempotent a 429 each, so a server acts on it at most once; it gives up on an answer that asks for a repeat only after the last attempt or when the next wait does not fit the budget |
| JsonRequest.OutcomeProves | integrations/_json-request.ts:172-238 | for a request that is not idempotent, success proves that the server acted exactly once, and a failure proves that it did not act exactly when it is not uncertain and the last answer is neither a 303 nor a hidden redirect |
| JsonRequest.OnlyTheLastActs | integrations/_json-request.ts:172-238 | of the requests of a run that are not idempotent only the last can have been acted on |
| JsonRequest.SeeOtherHidesTheAction | integrations/_json-request.ts:187-197 | a request that is carried out and answered with a 303 is reported as one that certainly was not |
| PushStore.SavesKeepTheNewest | integrations/push-file-store.ts:231-242 | folding saves, the list is the newest endpoints, each once, in the order of their last save |
| PushStore.CapEarly | integrations/push-file-store.ts:235-239 | dropping the oldest before a save drops nothing the save would have kept |
| PushStore.LatestIsDistinct | integrations/push-file-store.ts:231-242 | the reference list holds every saved endpoint once |
| PushStore.PushFileStore.Save | integrations/push-file-store.ts:231-242 | a save moves the endpoint to the end of its user's capped list and changes nothing else |
| PushStore.PushFileStore.SaveAll | integrations/push-file-store.ts:231-242 | after any saves for a user who had none, and any for others between them, the list is the newest endpoints saved, in the order of their last save |
| PushStore.PushFileStore.DeleteByEndpoint | integrations/push-file-store.ts:219-229 | a delete removes the endpoint, drops an empty user, and writes nothing when it was not there |
| PushStore.PushFileStore.SaveState | integrations/push-file-store.ts:253-258 | a named value is set and no subscription changes |
| PushStore.PushFileStore.AnyRun | integrations/push-file-store.ts:207-258 | from no file, after any calls, every list is distinct and within the cap |
| RateText.PlainDecimalIsExact | integrations/exchange-rates.ts:150-160 | every text in exponent notation becomes a plain decimal of exactly the number that it writes, and any other text stays as it is |
| RateText.MatchesWritten | integrations/exchange-rates.ts:153-155 | the digits, the sign and the exponent of a text are taken apart as they are written |
| RateFallback.Daily | integrations/exchange-rates.ts:672-702 | each asked quote has the first rate that was offered for it, and is missing exactly when none was, where each source is asked for the quotes that nothing before it priced; the failures are those of the sources asked; the call fails exactly when something is asked for and every source fails on all of it, with the first failure |
| RateFallback.MissingKeepsOrder | integrations/exchange-rates.ts:682-694 | the missing quotes keep the order they were asked in |
| RateFallback.UncoveredIs | integrations/exchange-rates.ts:682-694 | the quotes left are those asked for without the priced ones, in order |

## Left out

- Texts with unpaired surrogates: a character here is a code point, so an unpaired surrogate cannot be written down.
- XML stack: open elements are values on a list rather than objects that share their `children` arrays.
- Positions in the XML reader and the tag scanner: methods keep the rest of the text, and an offset where the result needs it.
- Error texts: errors are named by kind; the wording, clipped names and quoted values are not modelled.
- Option defaults and the checks of option values.
- `parseMultistatus` and the request bodies of `caldav/xml.ts`: reading properties out of a tree adds only easy members.
- Overlapping `loadCompleted` and the promise that overlapping `refresh` calls share: calls follow one another.
- Store failures and transactions that abort: a store call here takes effect as a whole.
- `URL`, `Intl`, JSON, `parseIcal` and `serializeIcal`: an address is a text or an opaque record, a parsed calendar a tree.
- CalDavWrite.WriteTransport.CreateAt: the object's address is the one `objectUrl` gives; that `createObject` joins the same parts to the same address is taken from the URL library.
- CalDavClient.Client.UpdateObject: an address has no fragment here, so its refusal for one is not modelled; after a redirect the etag is compared at the address it leads to, whose tags the redirecting one does not share.
- Relay adapters with path-only addresses: an address here has an origin.
- CalDavWrite.WriteTransport.Refuse: the request for privileges changes nothing and may get any answer; its redirects are not traced.
- Weak comparison: the model lets a server match a weak entity tag in `If-Match`, which allows more writes than section 13.1.1 of RFC 9110 does.
- DkimVerify.VerifyDkimSignatures: takes octets, not the UTF-8 encoding of a string; the key is a function of domain and selector, and hashing and checking are uninterpreted.
- DkimInvariance.BValueMakesNoDifference: for values that are not quoted, which are all that the grammar of section 3.2 of RFC 6376 has.
- DkimKeys.EncodeDerLength: lengths below 2^31, where the shifts of the language are exact.
- `dkim-body-hash.ts`: the cache is left out, each signature sees the same canonical bodies.
- RateText.PlainDecimalIsExact: begins at the shortest text of the number, which the language gives.
- JsonRequest.SendJson: one caller of `runWithRetry`; sleeping is exact and an attempt never outlasts what it is given.
- `userKey`, `checkedSubscription` and reading a corrupt file in `push-file-store.ts`: a call here has passed those checks.
- `parseBareAddress` and `isExampleAddress`: single expressions.
- SMTP sending, HTML mail, social, billing, messaging and language-model clients: request building and status tables.
