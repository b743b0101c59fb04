# Verified models of MIT Kerberos 5 release 1.2

This project models the parts of Kerberos 5 release 1.2 whose correctness is hard to see from
the code, and proves what they promise. `dafny verify dfyconfig.toml` checks all of it.

| files | part of the system |
|---|---|
| `Transited.dfy`, `TransitedMeaning.dfy`, `TransitedPlacement.dfy` | compression of the transited-realm list (section 3.3.3.1 of RFC 1510): the pass, what the list means, where a realm goes |
| `Tickets.dfy`, `Kdc.dfy`, `TicketChains.dfy`, `TicketExamples.dfy` | which requests deserve which ticket; the AS and TGS exchanges; every chain of tickets they can give rise to |
| `RcpWire.dfy`, `Rcp.dfy`, `RcpRuns.dfy`, `RcpTree.dfy`, `RcpBlocks.dfy` | `rcp -r -p`: both processes, their protocol, and the tree it rebuilds |
| `Kprop.dfy` | propagation of the database, kprop against kpropd |
| `Lookaside.dfy`, `LookasideAges.dfy` | the KDC's cache of recent answers, and how it forgets |
| `Kcmd.dfy` | encrypted packets with left-over buffering |
| `RloginQuote.dfy`, `RloginMessages.dfy`, `RloginEscape.dfy` | in-band quoting and control messages, and the escape scanner of the terminal side |
| `Asn1.dfy`, `Asn1Indefinite.dfy` | the walker that picks one field out of an encoded message |

Loops over buffers and objects with state are Dafny methods and classes, each proved equal to a
function on values; the theorems are about those functions. Where a function only says what the code
does, there are theorems that pin it down in other terms: on the raw fields of requests and entries for
the KDC, on the names of the list for the transited field, on times in seconds for the cache. The two-process programs are state
machines whose steps are the reads and writes of the two processes, so that the theorems are
about every interleaving.

## What is taken as given

- A request is decoded, its header ticket decrypted and authenticated, and the database entries
  found, before `Kdc` sees them. Whether a preauthentication element verifies is part of the element.
- Time is a parameter of every step. A chain of tickets has a clock that does not go back.
- Ciphers are pairs of functions; `Kcmd.Sound` says that decryption undoes encryption in step,
  up to trailing padding.
- File-system failures of rcp and short or failed writes of kpropd are inputs, and so are read
  sizes and the order in which processes take their steps.
- Integers are unbounded. Allocation succeeds.

## What turned out differently from the comments or from what one would expect

- **Transited list.** Prefix and suffix tests ignore label boundaries. Adding `MIT.EDU` to the
  list `IT.EDU` stores `M`, which stands for `M`, not for `MIT.EDU`. `AddMeaning` gives the exact
  condition; `CutInsideLabel` the failing family. A backslash is dropped
  rather than taken as a quote (`BackslashDropped`), and the names after a null subfield are lost
  (`NullSubfield`).
- **Space for the list.** The comment says that the space allocated for the new field is the most that
  can be needed. It is not, if a field ends in a dot after a name of the other style: the length checks
  are made against another limit (`AddLength`, `OutgrowsExample`). It is for fields in compressed form.
- **Renewal.** A RENEW or VALIDATE request that does not also ask for RENEWABLE gets a ticket with the
  flag and a renewal limit of 0 (`LimitLost`, `RenewLosesLimit`, `ValidateLosesLimit`), after which no
  renewal succeeds (`NoFurtherRenewal`).
- **Postdating in the TGS.** The requested start time is not used; the ticket starts at the time of
  issue, with POSTDATED and INVALID set (`PostdatedHop`, `PostdatedStartsNow`).
- **The server's entry.** RENEWABLE-OK can give a renewable ticket for a server that disallows it, and
  the TGS does not check POSTDATED against the server (`RootServerPolicy`, `HopServerPolicy`,
  `RenewableInstead`, `PostdatedAnyway`).
- **Proxying.** The comment says that ticket-granting tickets cannot be proxied; the code refuses PROXY
  for every server that is not a ticket-granting one (`AdmittedProxy`, `ProxyOfTgt`).
- **kpropd** reports a failed write and goes on; the broken file is renamed and loaded
  (`LoadedIff`, `LoadsAfterFailedWrite`). The sender never reports success in such a run
  (`SuccessMeansLoaded`).
- **rcp** sends an error to its peer only from the remote side. A local sink that refuses a node or
  cannot write it, and a local source that cannot read a file, leave both sides waiting
  (`CompletesIff`, `LocalFailureDeadlocks`); a local source that cannot open a file just leaves it out.
- **rcp reads.** A file that has become shorter is not noticed if errno is 0: what is in the buffer is
  sent for the missing bytes (`ErrorNoticed`, `QuietShortRead`).
- **Encrypted stream.** A read that wants more than is held and then meets the end of the stream
  returns 0; the bytes held are gone (`ReadConserves`, `HeldLost`). After a packet whose two lengths
  differ a read fails, and the next one is served from that packet all the same (`FailedRead`).
- **rlogin quoting.** Unquoting looks again at the bytes it has just put in place, so a pair of 0377
  bytes followed by `qq`, or by `oo` and one more byte, is not restored (`RoundTrip`); nor is a quoted
  pair that is cut by the end of a read (`ReadsRoundTrip`). A message that flushes is commented as
  taking what comes before it; the whole buffer is dropped, also what follows (`FlushTakesAll`).
- **rlogin -c.** The answer to "kill session?" is read from the terminal although input may be buffered,
  so it depends on the sizes of reads which byte answers (`AnswerFromBehind`); `ReadsDoNotMatter` says
  exactly when it does not matter.
- **ASN.1 walker.** The end of the message is computed from the position of the first length octet,
  so a last field is missed exactly if it and what follows take no more octets than the outer
  length (`FetchPresent`, `FetchMissesLast`). An indefinite form without contents is misread
  (`EmptyMisread`); any other is read right (`IndefiniteContents`). The check for a tag met before
  never fires: such a tag has already been taken for the start of a new level (`NeverRepeated`).

## Model

| member | source | states |
|---|---|---|
| `Transited.Subrealm` | src/kdc/kdc_util.c:496-509 | sign and size say which style of subrealm it is and how much is left over; 0 only if neither name ends (X.500: begins) with the other |
| `Transited.ReadField` | src/kdc/kdc_util.c:630-647 | the character loop reads one field up to a comma, dropping backslashes, and fails exactly if it does not fit the buffer |
| `Transited.ExpandCurrent` | src/kdc/kdc_util.c:656-684 | the expanded name is the field read relative to its predecessor; fails exactly if a relative name and its predecessor do not leave room for two more characters |
| `Transited.Splice` | src/kdc/kdc_util.c:708-793 | writes the current field, or it and the new realm after or before it, re-compressed; reports whether the realm was added |
| `Transited.Emit` | src/kdc/kdc_util.c:795-807 | appends after a comma unless it is the first; what each outcome, refused by a check or past the end of the buffer, says about the length |
| `Transited.EmitLast` | src/kdc/kdc_util.c:815-836 | a realm not placed earlier is put at the end, with a space before an X.500 name that does not come first; the outcomes as above |
| `Transited.Round` | src/kdc/kdc_util.c:654-813 | each round of the loop keeps output plus fields still to come equal to the whole rewritten list, and shortens what is to come |
| `Transited.AddToTransited` | src/kdc/kdc_util.c:570-843 | the one-pass loop computes the list-level rewriting; it succeeds exactly if the fields are short enough, and the result is at most 498 characters and fits the space allocated, |otrans| + |realm| + 2; refused or overrun only for the reasons given |
| `Transited.ShortIsRoomy` | src/kdc/kdc_util.c:631-684 | a list that fits one buffer as a whole meets the first of these conditions |
| `Transited.RewriteStep` | src/kdc/kdc_util.c:654-813 | one round moves the fields it writes from the walk to the output |
| `TransitedMeaning.FieldsOfJoin` | src/kdc/kdc_util.c:630-647 | splitting undoes joining |
| `TransitedMeaning.NullSubfield` | src/kdc/kdc_util.c:630-654 | reading stops at a null subfield: the names after it are lost |
| `TransitedMeaning.BackslashDropped` | src/kdc/kdc_util.c:631-636 | for every string, a backslash in it makes no difference to its fields |
| `TransitedMeaning.PieceExpands` | src/kdc/kdc_util.c:722-736 | a name written relative to another expands back to itself if and only if the cut falls between labels |
| `TransitedMeaning.HeadExpands` | src/kdc/kdc_util.c:752-779 | the new realm written relative to the previous name expands to itself and is of a fitting style |
| `TransitedMeaning.BadCutIsShort` | src/kdc/kdc_util.c:722-736 | a cut inside a label gives a name strictly shorter than the realm it should stand for |
| `TransitedMeaning.InsertAfter` | src/kdc/kdc_util.c:710-737 | putting the realm after the current one inserts it and disturbs nothing, if and only if the cut falls between labels |
| `TransitedMeaning.InsertBefore` | src/kdc/kdc_util.c:749-792 | the same for putting it before the current one, for both cuts made |
| `TransitedMeaning.RewriteFound` | src/kdc/kdc_util.c:706-710 | a realm already listed where it is looked for leaves the list as it is |
| `TransitedMeaning.RewriteInserts` | src/kdc/kdc_util.c:654-836 | over the whole walk the realm comes out exactly once more, the others unchanged and in order, if and only if all cuts fall between labels |
| `TransitedMeaning.RewriteWellFormed` | src/kdc/kdc_util.c:654-836 | the rewritten list is in compressed form again |
| `TransitedMeaning.RewriteSize` | src/kdc/kdc_util.c:654-836 | for any fields and any realm: the list grows by at most the realm and two characters if there is no excess, and by exactly the excess more if there is |
| `TransitedMeaning.BeforeSize` | src/kdc/kdc_util.c:749-792 | what putting the realm in front of a field costs, exactly so for a field that ends in a dot after a name of the other style |
| `TransitedMeaning.AddMeaning` | src/kdc/kdc_util.c:570-843 | for every well-formed field and legal realm: unchanged if the realm is implicit or found, else the old realms in order with the new one among them, if and only if the cuts fall between labels |
| `TransitedMeaning.AddKeepsForm` | src/kdc/kdc_util.c:649-836 | the new field is well formed |
| `TransitedMeaning.AddLength` | src/kdc/kdc_util.c:611-614 | for every field and realm: the space allocated is enough if and only if the realm is implicit or the excess is made up for by dropped characters |
| `TransitedMeaning.AddLengthFormed` | src/kdc/kdc_util.c:556-561 | for fields in compressed form it always is |
| `TransitedMeaning.OutgrowsExample` | src/kdc/kdc_util.c:611-614 | a field of 12 characters and a realm of 1: the result has 22, and 15 fit |
| `TransitedMeaning.AddNested` | src/kdc/kdc_util.c:518-567 | among realms that nest along labels, the expansion as a set gains exactly the new realm unless it is the client's or server's |
| `TransitedMeaning.BuildMeaning` | src/kdc/kdc_util.c:510-567 | from the empty field, any finite sequence of additions stays well formed and stands for exactly the realms added and not implicit |
| `TransitedMeaning.CutInsideLabel` | src/kdc/kdc_util.c:496-509 | a realm that is another one with one more letter in front is listed as that letter |
| `TransitedMeaning.CutInsideLabelExample` | src/kdc/kdc_util.c:496-509 | the instance MIT.EDU after IT.EDU |
| `TransitedPlacement.AddPlaces` | src/kdc/kdc_util.c:706-836 | for every field and realm: the first listed name that is the realm, or that the realm lies under while no relative field follows, or that lies under the realm, decides; the realm is written right after it less that name, or right before it with that name rewritten less the realm, or in full at the end if none decides |
| `TransitedPlacement.AddImplicit` | src/kdc/kdc_util.c:649-652 | the realms of client and server are never added |
| `TransitedPlacement.AddNames` | src/kdc/kdc_util.c:518-567 | for lists in compressed form and cuts between labels: the new list stands for the old names in order with the realm at exactly that place |
| `TransitedPlacement.RoomyMeans` | src/kdc/kdc_util.c:630-702 | the length checks on the fields are passed exactly if each field has at most 499 characters and each name put together from two parts at most 498 |
| `TransitedPlacement.AfterParent` | src/kdc/kdc_util.c:722-736 | MIT.EDU added to EDU,COM gives EDU,MIT.,COM |
| `TransitedPlacement.BeforeChild` | src/kdc/kdc_util.c:749-792 | a realm added to a list of one name under it goes in front, and that name is written relative to it |
| `TransitedPlacement.CompressedLists` | src/kdc/rtest.good:1-12 | what compressed lists of both styles stand for, as in section 3.3.3.1 of RFC 1510 |
| `Kdc.CheckPadata` | src/kdc/kdc_preauth.c:299-359 | sets exactly the flags earned by verified elements; accepts iff one verified, or none could be verified and none is required |
| `Kdc.FillAsTicket` | src/kdc/do_as_req.c:187-253 | flags and times of the root ticket, with the caps of client, server and realm |
| `Kdc.ProcessAsReq` | src/kdc/do_as_req.c:185-297 | a ticket is issued iff the options are among the six known, client, server and password are not expired, neither entry is locked out or forbids what is asked, and the client preauthenticated as its entry demands; the ticket's server, client, addresses, flags and dates, each from the request and the entries; else the error of the first condition that fails |
| `Kdc.AsEligibility` | src/kdc/kdc_util.c:855-964 | the validator accepts exactly the requests that meet the conditions on options, expiry, password change, policy and lock-out |
| `Kdc.AsAdmission` | src/kdc/do_as_req.c:185-297 | with preauthentication: exactly the requests that deserve a ticket get past every check |
| `Kdc.AsRefusal` | src/kdc/kdc_util.c:862-964 | the error returned belongs to the first condition, in the order of the code, that fails |
| `Kdc.EarnedMeans` | src/kdc/kdc_preauth.c:316-347 | PRE_AUTH is earned exactly by an encrypted timestamp that verifies, HW_AUTH by a SAM response that does, and nothing else is |
| `Kdc.AcceptedMeans` | src/kdc/kdc_preauth.c:299-359 | padata is accepted exactly if one element verified, or none of a kind that can be verified was offered and none is required |
| `Kdc.AsTicketDates` | src/kdc/do_as_req.c:208-253 | the end is the least of the time asked for and the three maxima from the start; so is the renewal limit, which is 0 if none was asked for or offered instead of life |
| `Kdc.AsTicketGranted` | src/kdc/do_as_req.c:185-277 | every field of the root ticket, and for each flag exactly when it is set |
| `Kdc.ConcatAuthorizationData` | src/kdc/kdc_util.c:90-137 | the copying loops give the first list followed by the second |
| `Kdc.FillTgsTicket` | src/kdc/do_tgs_req.c:279-409 | the step-by-step overwriting, with its VALIDATE and RENEW branches, gives the flags, times and addresses that `TgsTicketGranted` pins down |
| `Kdc.ProcessTgsReq` | src/kdc/do_tgs_req.c:279-493 | a ticket is issued iff the header ticket is for this server or a ticket granting ticket for its realm, backs what is asked, is valid or being validated and within its limits, the server's entry is not expired or locked out and allows it, the transited field passes its checks and fits its space, and a second ticket is the server's own; every field of the ticket; else the error of the first condition that fails |
| `Kdc.TgsAdmission` | src/kdc/kdc_util.c:1135-1379 | header checks and validator admit exactly the requests that meet these conditions |
| `Kdc.TgsRefusal` | src/kdc/kdc_util.c:1147-1379 | the error returned belongs to the first condition, in the order of the code, that fails |
| `Kdc.TgsTicketDates` | src/kdc/do_tgs_req.c:344-409 | the end is the least of the time asked for, the two maxima from now and the header's end or, renewing, of the header's limit and its life from now; the renewal limit is the least of what is asked for, the header's limit and the two maxima, or 0 |
| `Kdc.TgsTicketGranted` | src/kdc/do_tgs_req.c:279-493 | every field of the new ticket, and for each flag exactly when it is set |
| `TicketChains.ChainDeserved` | src/kdc/kdc_util.c:855-1379 | at every step on the way to any ticket the request met all conditions and got exactly the ticket they entitle it to |
| `TicketChains.ChainEnds` | src/kdc/do_tgs_req.c:355-365 | without renewal, no later ticket outlasts what any request before it asked for, nor what its server and realm allow |
| `TicketChains.TgsTimesBound` | src/kdc/do_tgs_req.c:344-409 | one TGS step never gives more effective life, a later renewal limit or a later end than the header ticket's own allow |
| `TicketChains.HopTimes` | src/kdc/do_tgs_req.c:344-409 | the same for a step of a chain |
| `TicketChains.ChainTimes` | src/kdc/do_tgs_req.c:282-409 | along every chain: life and renewal limit never grow, no ticket ends after the root's end and renewal limit, the authentication time is the root's, nothing precedes the root's start |
| `TicketChains.ChainLifeCapped` | src/kdc/do_as_req.c:208-223 | every ticket's life is within the maxima of the root's client, server and realm |
| `TicketChains.PostdatedWaits` | src/kdc/kdc_util.c:1318-1324 | nothing at all is derived from a postdated root before the start time requested |
| `TicketChains.TgsFlagGranted` | src/kdc/do_tgs_req.c:300-390 | a power appears in the new ticket only if the header ticket has it |
| `TicketChains.TgsFlagKept` | src/kdc/do_tgs_req.c:392-404 | PRE_AUTH and HW_AUTH are those of the header ticket |
| `TicketChains.TgsForwardedKept` | src/kdc/do_tgs_req.c:303-312 | FORWARDED is never lost in a step |
| `TicketChains.RootFlags` | src/kdc/kdc_preauth.c:316-347 | the root has PRE_AUTH and HW_AUTH exactly if an encrypted timestamp or a SAM response verified |
| `TicketChains.ChainFlags` | src/kdc/do_tgs_req.c:300-404 | FORWARDABLE, PROXIABLE, MAY_POSTDATE and RENEWABLE only if the root has them; PRE_AUTH and HW_AUTH exactly if proved at the root |
| `TicketChains.ForwardedStays` | src/kdc/do_tgs_req.c:303-312 | once FORWARDED, every later ticket of the chain is |
| `TicketChains.PreauthEnforced` | src/kdc/kdc_preauth.c:192-229 | a client that must preauthenticate did so, by an element that verified, for every ticket it ever holds |
| `TicketChains.ServerPreauth` | src/kdc/kdc_util.c:1356-1368 | a server that requires preauthentication is reached only by chains whose client preauthenticated with an element that verified |
| `TicketChains.AsBarred` | src/kdc/kdc_util.c:910-941 | a power the client's entry rules out is not in its root ticket, renewable-ok included |
| `TicketChains.TgsBarred` | src/kdc/do_tgs_req.c:300-390 | a TGS step brings back neither the power nor the marks it leaves |
| `TicketChains.ClientPolicy` | src/kdc/kdc_util.c:855-970 | forwarding, proxying, postdating or renewing ruled out in the client's entry appears in no ticket of any chain |
| `TicketChains.RootServerPolicy` | src/kdc/do_as_req.c:225-247 | a root ticket carries what its server's entry rules out exactly if it is made renewable because the life asked for is too long |
| `TicketChains.HopServerPolicy` | src/kdc/kdc_util.c:1265-1297 | a later ticket does exactly if it is made renewable instead, or is postdated, or renews or validates a ticket that does |
| `TicketChains.AdmittedProxy` | src/kdc/kdc_util.c:1255-1263 | PROXY is admitted only for a ticket granting server, with a ticket for that same server |
| `TicketChains.ChainClient` | src/kdc/do_tgs_req.c:453 | the client name is the root's along every chain |
| `TicketChains.ChainAddresses` | src/kdc/do_tgs_req.c:290-350 | a root neither FORWARDABLE nor PROXIABLE fixes the addresses of everything derived from it |
| `TicketChains.ChainAuthdata` | src/kdc/do_tgs_req.c:411-450 | a ticket's authorization data is a suffix of that of every ticket derived from it |
| `TicketChains.ChainTransited` | src/kdc/do_tgs_req.c:457-493 | the transited field of every ticket of a chain expands to exactly the realms visited |
| `TicketChains.ChainInBounds` | src/kdc/kdc_util.c:611-614 | along a chain of realms that nest along labels, no transited field outgrows its space |
| `TicketChains.ChainNamesIssuers` | src/kdc/do_tgs_req.c:457-493 | where each KDC serves its own realm, the field names every KDC of the chain except the last and the client's own, and nothing else |
| `TicketChains.LimitLost` | src/kdc/do_tgs_req.c:344-390 | for every step: the exact condition under which the ticket is RENEWABLE without a renewal limit |
| `TicketChains.NoFurtherRenewal` | src/kdc/kdc_util.c:1326-1334 | with a limit of 0 no renewal succeeds anywhere later in the chain |
| `TicketChains.PostdatedHop` | src/kdc/do_tgs_req.c:329-365 | a postdated TGS ticket starts at the requested time if and only if that is the time of issue |
| `TicketExamples.RenewLosesLimit` | src/kdc/do_tgs_req.c:344-390 | a valid chain: renewing without RENEWABLE leaves the flag and a limit of 0 |
| `TicketExamples.ValidateLosesLimit` | src/kdc/do_tgs_req.c:336-390 | a valid chain: so does validating a postdated renewable ticket |
| `TicketExamples.PostdatedStartsNow` | src/kdc/do_tgs_req.c:329-365 | a valid chain: a ticket to start at 40, asked for at 20, starts at 20 |
| `TicketExamples.ProxyOfTgt` | src/kdc/kdc_util.c:1255-1263 | a valid chain: a ticket granting ticket is proxied |
| `TicketExamples.RenewableInstead` | src/kdc/do_as_req.c:225-241 | a valid root: RENEWABLE, for a server whose entry forbids it |
| `TicketExamples.PostdatedAnyway` | src/kdc/kdc_util.c:1286-1291 | a valid chain: POSTDATED, for a server whose entry forbids it |
| `TicketExamples.EndIsLeast` | src/kdc/do_tgs_req.c:355-365 | till 30, server maximum 5, at time 20: the ticket ends at 25 |
| `TicketExamples.ExpiredClient` | src/kdc/kdc_util.c:884-892 | a client is served until its entry expires, and not after |
| `RcpWire.GetNumBack` | src/appl/bsd/krcp.c:1030-1045 | a decimal number that was printed is read back, up to the first character that is no digit |
| `RcpWire.GetModeOct` | src/appl/bsd/krcp.c:1063-1071 | the printed mode, read as octal digits, is the mode modulo 010000 |
| `RcpWire.ParseTimesBack` | src/appl/bsd/krcp.c:1031-1048 | the times record is read back |
| `RcpWire.ParseBack` | src/appl/bsd/krcp.c:1023-1076 | file, directory and end records are read back |
| `RcpWire.MakeForm` | src/appl/bsd/krcp.c:1062-1076 | for every string: a C or D record is obeyed exactly if it has four octal digits, a blank, a number and a blank; the name is the rest |
| `RcpWire.TimesForm` | src/appl/bsd/krcp.c:1031-1048 | for every string: a T record is obeyed exactly if it is four numbers with single blanks between them |
| `RcpWire.RecordKinds` | src/appl/bsd/krcp.c:1015-1061 | the first character decides; anything else is a protocol error |
| `RcpWire.ReadLineBack` | src/appl/bsd/krcp.c:1005-1014 | a record ends at its newline |
| `RcpWire.ResponseBack` | src/appl/bsd/krcp.c:907-935 | an acknowledgement and an error report are told apart and consumed whole, by `response` and by the sink's record reader |
| `RcpRuns.KidsFinish` | src/appl/bsd/krcp.c:872-903 | sending the entries of a directory and then its end comes to the recursive transfer of the entries |
| `RcpRuns.DirFinish` | src/appl/bsd/krcp.c:1089-1108 | making a directory, sending its entries and setting its times comes to sending the directory |
| `RcpRuns.SourceKeeps` | src/appl/bsd/krcp.c:756-903 | every step of the source keeps the lock-step invariant |
| `RcpRuns.SinkKeeps` | src/appl/bsd/krcp.c:971-1175 | so does every step of the sink |
| `RcpRuns.SinkRefusesNode` | src/appl/bsd/krcp.c:1109-1113 | a refused node costs just itself if the refusal is sent, else both sides wait |
| `RcpRuns.StoreKeeps` | src/appl/bsd/krcp.c:1126-1170 | after a file and its status, the sink stores it with its times and answers |
| `RcpRuns.SourceProgress` | src/appl/bsd/krcp.c:756-903 | every step of the source lowers a measure of the work left |
| `RcpRuns.SinkProgress` | src/appl/bsd/krcp.c:971-1175 | every step of the sink consumes input and leaves the source alone |
| `RcpRuns.Terminal` | src/appl/bsd/krcp.c:907-935 | a state in which neither side can move is the finished one, or a deadlock if the transfer cannot succeed |
| `RcpRuns.EveryRun` | src/appl/bsd/krcp.c:756-1175 | under every schedule: the run completes iff the recursive transfer succeeds, with its file system; otherwise both sides wait for good |
| `RcpTree.TransferImage` | src/appl/bsd/krcp.c:971-1175 | into any directory, whatever is there: the transfer adds exactly the image of the tree, unless a node that is reached is blocked |
| `RcpTree.ImageAt` | src/appl/bsd/krcp.c:849-903 | the image has an entry exactly for the nodes that are reached and made, and it is the node's |
| `RcpTree.EntryMeans` | src/appl/bsd/krcp.c:1126-1170 | the bytes, mode and times a node ends up with, by the failures of reading and writing that strike it |
| `RcpTree.LostMeans` | src/appl/bsd/krcp.c:1088-1113 | a node is lost exactly if the source cannot open it, something of the other kind is in its place, or the sink cannot make it |
| `RcpTree.BlockedMeans` | src/appl/bsd/krcp.c:1229-1232 | a node blocks the transfer exactly if it is the local side that cannot make, read or write it |
| `RcpTree.ImageAlike` | src/appl/bsd/krcp.c:1088-1098 | what a node gives rise to depends only on what is at its place and below |
| `RcpTree.CompletesIff` | src/appl/bsd/krcp.c:1229-1232 | under every schedule: the run completes iff no node that is reached meets a failure that goes unreported |
| `RcpTree.CompleteMerges` | src/appl/bsd/krcp.c:1088-1120 | every complete run: at each path either the node sent, over what was there, or what was there before; the directory around it has a new time exactly if the tree is new in it |
| `RcpTree.RemoteFailures` | src/appl/bsd/krcp.c:1229-1232 | if only the remote side fails, every run completes; each failure costs its own node and what is below; all else arrives and nothing else changes |
| `RcpTree.Rebuilt` | src/appl/bsd/krcp.c:756-1175 | without failures the tree is rebuilt exactly: names, contents, four-digit modes, times; other entries stay |
| `RcpTree.LocalFailureDeadlocks` | src/appl/bsd/krcp.c:1229-1232 | an instance: a refusal by a local sink ends in a deadlock under every schedule |
| `RcpBlocks.SendBlocks` | src/appl/bsd/krcp.c:823-837 | the loop sends what the recursive form says, for any outcome of the reads |
| `RcpBlocks.SendsAnnounced` | src/appl/bsd/krcp.c:823-831 | the announced number of bytes is sent in any case |
| `RcpBlocks.ErrorNoticed` | src/appl/bsd/krcp.c:828-836 | an error is found exactly if some read falls short and sets errno |
| `RcpBlocks.SendsFile` | src/appl/bsd/krcp.c:823-831 | reads that give the file's bytes send the file |
| `RcpBlocks.QuietShortRead` | src/appl/bsd/krcp.c:828-829 | a short read that leaves errno 0: a stale byte is sent and no error is found |
| `RcpBlocks.ReadFully` | src/appl/bsd/krcp.c:1134-1145 | short reads are put together to exactly the bytes asked for |
| `RcpBlocks.ReceiveBlocks` | src/appl/bsd/krcp.c:1126-1156 | exactly the announced bytes are consumed; they are written unless a write fails, and always a prefix of them |
| `Kprop.SenderSends` | src/slave/kprop.c:569-602 | every step of the sender keeps the bytes: written, in flight, unread |
| `Kprop.ReceiverTakes` | src/slave/kpropd.c:741-801 | so does every step of the receiver |
| `Kprop.SenderAccounts` | src/slave/kprop.c:569-650 | sizes, states and messages stay consistent under the sender's steps |
| `Kprop.ReceiverAccounts` | src/slave/kpropd.c:331-362 | and under the receiver's: receive, rename, load, confirm in this order |
| `Kprop.BytesConserved` | src/slave/kpropd.c:741-801 | in every interleaving, while no write has failed: bytes written + in flight + unread are the dump |
| `Kprop.SuccessMeansLoaded` | src/slave/kprop.c:597-650 | the sender succeeds only if exactly the dump was written, renamed and loaded |
| `Kprop.LoadedIff` | src/slave/kpropd.c:331-362 | what is loaded is the part of the dump received if and only if no write has failed |
| `Kprop.LoadsEnough` | src/slave/kpropd.c:741-801 | in every run less than a block of 32768 more than announced is taken, and nothing is loaded before as much as announced is; never, if the dump is shorter |
| `Kprop.OpenSteps` | src/slave/kprop.c:569-602 | which blocks can be sent, and that either side can fail before it is done, with a report or without |
| `Kprop.LoadsAfterFailedWrite` | src/slave/kpropd.c:763-777 | a run in which the only block cannot be written and an empty file is loaded |
| `Kprop.HealthyEnabled` | src/slave/kprop.c:569-650 | without failures some step is possible until the sender has succeeded |
| `Kprop.HealthyProgress` | src/slave/kprop.c:569-650 | each such step lowers a measure |
| `Kprop.HealthyRunSucceeds` | src/slave/kprop.c:569-650 | every run without failures has at most 2n + 10 steps for n bytes and can be carried on until the dump is loaded and success reported |
| `Lookaside.ScanStep` | src/kdc/replay.c:92-122 | a match ends the scan and counts the hit, a stale entry is taken out, any other is passed over |
| `Lookaside.Cache.Unlink` | src/kdc/replay.c:113-116 | giving the node before it its next takes a node off the list and leaves the rest of the list as it was |
| `Lookaside.Cache.Advance` | src/kdc/replay.c:107-121 | one round of the loop on the linked nodes: a stale node is unlinked, any other kept, and the list before and after stays intact |
| `Lookaside.Joined` | src/kdc/replay.c:92-122 | the nodes kept and those not yet visited are one list, without repetition |
| `Lookaside.Cache.Search` | src/kdc/replay.c:92-122 | scanning the linked nodes, with unlinking in place, is the recursive scan of their entries |
| `Lookaside.Cache.Check` | src/kdc/replay.c:73-124 | the call as a whole, counters included; the list stays a list of nodes that were in it |
| `Lookaside.Cache.Insert` | src/kdc/replay.c:129-173 | the answer goes to the front if the time and the database age can be read, else nothing changes |
| `Lookaside.Cache.Dispatch` | src/kdc/dispatch.c:51-104 | check, process, insert: the new cache and the outcome |
| `Lookaside.ScanKeepsLive` | src/kdc/replay.c:92-122 | a scan never removes an entry that is not stale, and a scan without a match removes all stale ones |
| `Lookaside.ScanFinds` | src/kdc/replay.c:92-122 | the scan answers as an abstract lookup does |
| `Lookaside.ScanKeepsLookup` | src/kdc/replay.c:54-56 | a scan for any packet leaves the lookup of an entry less than 120 seconds old unchanged |
| `Lookaside.StaysRemembered` | src/kdc/dispatch.c:51-104 | over any sequence of dispatches, a stored answer stays to be found while it is recent |
| `Lookaside.SameAnswer` | src/kdc/dispatch.c:51-104 | until then the same packet from the same address is not processed again and gets the first answer |
| `LookasideAges.SearchLeaves` | src/kdc/replay.c:92-122 | for every cache and request: the answer is the first entry's for the request; of the entries before it exactly those less than 120 s from the time of the search and of the same database age are left, and all after it |
| `LookasideAges.MissForgets` | src/kdc/replay.c:107-116 | after a search that finds nothing, only the new entry and the young ones, in their order, are left |
| `LookasideAges.MostHits` | src/kdc/replay.c:107-109 | the statistics are the most hits of any entry flushed |
| `LookasideAges.ResentOnly` | src/kdc/replay.c:54-56 | over any sequence of dispatches: an answer is sent again only if it was given to the same packet before, and every search since that found nothing was less than 120 s from the time it was stored, with the same database |
| `LookasideAges.OldIsProcessed` | src/kdc/dispatch.c:51-104 | otherwise the packet is processed again |
| `LookasideAges.ForgottenAfterMiss` | src/kdc/replay.c:107-116 | A at 0, B at 500, A again at 600: processed again |
| `Kcmd.LengthBack` | src/appl/bsd/kcmd.c:1054-1058 | the four length bytes, most significant first, are read back |
| `Kcmd.PacketOpens` | src/appl/bsd/kcmd.c:1024-1050 | decrypting a packet gives back payload and, with ivecs, its length and the next ivec |
| `Kcmd.ParsePacket` | src/appl/bsd/kcmd.c:932-997 | the checks and reads on one packet, in order, with their error results |
| `Kcmd.ParseBack` | src/appl/bsd/kcmd.c:932-997 | a packet that was written is read as its payload, and what follows it is left |
| `Kcmd.FindsPlace` | src/appl/bsd/kcmd.c:932-941 | with the length check, bytes that cannot start a length are skipped and the next packet is read |
| `Kcmd.CutOff` | src/appl/bsd/kcmd.c:943-967 | a packet that is cut off gives the end of the stream within its length bytes, an error after them |
| `Kcmd.PreposterousLength` | src/appl/bsd/kcmd.c:951-962 | a length whose ciphertext would be empty or longer than 10240 is refused after its four bytes |
| `Kcmd.LengthsAgree` | src/appl/bsd/kcmd.c:985-997 | with ivecs a packet is opened only if the length inside equals the one in the clear |
| `Kcmd.Stream.Write` | src/appl/bsd/kcmd.c:1014-1066 | the new state of the stream, or an error |
| `Kcmd.WrittenIff` | src/appl/bsd/kcmd.c:1025-1066 | a buffer is written if and only if its ciphertext fits 10240 bytes; aborted exactly for more than 10244 bytes with ivecs; else nothing changes |
| `Kcmd.FailedRead` | src/appl/bsd/kcmd.c:924-997 | what a failing read leaves: end of stream, bad packet, and differing lengths, after which the packet is held all the same |
| `Kcmd.Stream.Read` | src/appl/bsd/kcmd.c:905-1010 | the bytes returned and the new buffer state |
| `Kcmd.Stream.ReadOn` | src/appl/bsd/kcmd.c:924-1009 | the left-over bytes come first, and what does not fit is kept |
| `Kcmd.WriteLinks` | src/appl/bsd/kcmd.c:1014-1066 | a write adds one payload to the packets under way |
| `Kcmd.ReadHeld` | src/appl/bsd/kcmd.c:919-923 | a read served from the buffer returns a prefix of it |
| `Kcmd.OpenedBytes` | src/appl/bsd/kcmd.c:983-1009 | returned bytes and what is then held are the old buffer followed by the packet's payload |
| `Kcmd.ReadConserves` | src/appl/bsd/kcmd.c:905-1010 | one read neither loses nor makes up bytes, unless it meets the end of the stream |
| `Kcmd.WriteTracked` | src/appl/bsd/kcmd.c:1014-1066 | a write keeps the balance of a whole sequence of calls |
| `Kcmd.ReadTracked` | src/appl/bsd/kcmd.c:905-1010 | so does a read that does not meet the end |
| `Kcmd.StreamConserved` | src/appl/bsd/kcmd.c:905-1066 | over any sequence of writes and reads, old or new protocol: returned + held + unread packets = written |
| `Kcmd.HeldLost` | src/appl/bsd/kcmd.c:924-948 | three bytes written, one read, then a read that meets the end: the two bytes held are gone |
| `RloginQuote.QuoteBuffer` | src/appl/bsd/krlogind.c:1096-1122 | the two-index loop computes the quoting, within twice the length |
| `RloginQuote.QuotesPairs` | src/appl/bsd/krlogind.c:1096-1122 | every pair of 0377 bytes is quoted where it stands, and other bytes are left as they are |
| `RloginQuote.UnquoteBuffer` | src/appl/bsd/krlogin.c:1571-1593 | the in-place loop that goes back after each removal ends, and computes the unquoting |
| `RloginQuote.RemoveQuote` | src/appl/bsd/krlogin.c:1483-1488 | a quoted pair becomes a pair and the rest moves up by two |
| `RloginQuote.UnquotePass` | src/appl/bsd/krlogin.c:1571-1593 | a byte that starts no control message is passed over |
| `RloginQuote.QuotedAgain` | src/appl/bsd/krlogin.c:1483-1488 | a pair put in place in front of `qq` is taken for a quote again, and the data are not restored |
| `RloginQuote.TakenForMessage` | src/appl/bsd/krlogin.c:1479-1482 | a pair in front of `oo` and another byte is taken for a message, and the data are not restored |
| `RloginQuote.RoundTrip` | src/appl/bsd/krlogin.c:1571-1593 | quoting and unquoting restores a buffer if and only if no two 0377 bytes are directly followed by `qq`, or by `oo` and one more byte |
| `RloginQuote.ReadsRoundTrip` | src/appl/bsd/krlogin.c:1565-1593 | quoted bytes that come in any number of reads are restored if and only if no read ends inside a quoted pair |
| `RloginQuote.PiecesRoundTrip` | src/appl/bsd/krlogin.c:1565-1593 | reads that end between the bytes, safe or not: restored if and only if each piece is safe by itself |
| `RloginMessages.AroundMessages` | src/appl/bsd/krlogin.c:1571-1593 | quoted pieces with any number of control messages between them: exactly the messages are taken out and all data comes through, unless one of them flushes |
| `RloginMessages.AroundOne` | src/appl/bsd/krlogin.c:1479-1482 | one message that does not flush between two pieces: both are kept |
| `RloginMessages.FlushTakesAll` | src/appl/bsd/krlogin.c:1577-1583 | a message that flushes leaves nothing, neither what came before it nor what came after |
| `RloginMessages.WindowRequest` | src/appl/bsd/krlogin.c:1479-1482 | 0377 0377 o o 0200 h i leaves h i; the quoted pair in octets |
| `RloginEscape.ScanChunk` | src/appl/bsd/krlogin.c:1214-1246 | stops at the first escape, the end or the size; the line state is that of the bytes taken |
| `RloginEscape.Input.ReadWrapper` | src/appl/bsd/krlogin.c:1189-1251 | the chunk is the beginning of what is buffered, after a read if nothing was; chunk plus rest is what there was; an escape is raised exactly at the escape positions of the stream |
| `RloginEscape.Input.ConfirmDeath` | src/appl/bsd/krlogin.c:725-746 | without -c the answer is yes; with it, the next byte that the terminal delivers, behind the buffer |
| `RloginEscape.EscapeAtConcat` | src/appl/bsd/krlogin.c:1214-1246 | the escape positions of a stream do not depend on where it is cut |
| `RloginEscape.RunPlain` | src/appl/bsd/krlogin.c:1099-1115 | buffered input without an escape is sent as it is |
| `RloginEscape.RunToEscape` | src/appl/bsd/krlogin.c:1115-1124 | of a chunk that ends in an escape all but the escape is sent |
| `RloginEscape.AfterEscape` | src/appl/bsd/krlogin.c:1125-1171 | the character after an escape ends the session, if the answer is yes, or stops the process, or is sent, with the escape unless doubled |
| `RloginEscape.WriteChunk` | src/appl/bsd/krlogin.c:1099-1171 | one round of the loop: what has been done plus what remains to be done is constant |
| `RloginEscape.Writer` | src/appl/bsd/krlogin.c:1055-1173 | what is done depends on the input and the sizes of the reads only, not on the size of the buffer |
| `RloginEscape.RunSettled` | src/appl/bsd/krlogin.c:1099-1173 | where the question is never asked, or is followed by nothing or by a whole buffer of one byte, it depends on the input only |
| `RloginEscape.RunOneByOne` | src/appl/bsd/krlogin.c:1099-1173 | reads of one byte each: the answer is the byte that comes next |
| `RloginEscape.Unsettled` | src/appl/bsd/krlogin.c:725-746 | for any other input there are reads that lead to something else |
| `RloginEscape.SettledUnasked` | src/appl/bsd/krlogin.c:725-746 | without -c every input is settled |
| `RloginEscape.ReadsDoNotMatter` | src/appl/bsd/krlogin.c:1055-1251 | for every input: what is sent, answered and stopped is the same for all read sizes if and only if the input is settled; always so without -c |
| `RloginEscape.SendsAfterEscape` | src/appl/bsd/krlogin.c:1141-1168 | a suspend character after an escape sends nothing, a doubled escape sends one, any other character is sent after the escape |
| `RloginEscape.SendsAfterQuit` | src/appl/bsd/krlogin.c:1129-1140 | a quitting character ends the session, with -c exactly on y, Y and control-D; on any other answer it is treated like the rest |
| `RloginEscape.DoubledArrives` | src/appl/bsd/krlogin.c:1055-1173 | any bytes at all arrive unchanged if the escapes among them are doubled, however they are read |
| `RloginEscape.AnswerFromBehind` | src/appl/bsd/krlogin.c:725-746 | escape, dot, y, a, b: read as 2 bytes the answer is y, read as 4 it is b, which is then lost |
| `Asn1.ReadHead` | src/kdc/kdc_util.c:1001-1030 | reading the length octets by a loop is the length they encode |
| `Asn1.Asn1Length` | src/kdc/kdc_util.c:992-1032 | definite lengths, and indefinite ones found by walking the values inside |
| `Asn1.FetchAsn1Field` | src/kdc/kdc_util.c:1044-1117 | the walk along the octets is the recursive walk |
| `Asn1.LengthBack` | src/kdc/kdc_util.c:1001-1008 | a minimally encoded length (section 8.1.3 of ITU-T X.690) is read back, wherever it stands |
| `Asn1.WalkField` | src/kdc/kdc_util.c:1071-1115 | a field is returned if it is the one wanted, else passed over as a whole |
| `Asn1.WalkFields` | src/kdc/kdc_util.c:1071-1115 | the walk over a list of fields finds what is found when it stops short of the end by a given gap |
| `Asn1.FetchMessage` | src/kdc/kdc_util.c:1044-1117 | for every application-tagged SEQUENCE of fields with increasing tags the gap is the number of outer length octets |
| `Asn1.FetchPresent` | src/kdc/kdc_util.c:1044-1117 | a field that is there is returned exactly if it and what follows take more octets than the outer length, so always if they take more than 4; else it is reported as absent |
| `Asn1.FetchAbsent` | src/kdc/kdc_util.c:1071-1117 | a field that is not there is reported as absent |
| `Asn1.FetchMissesLast` | src/kdc/kdc_util.c:1060-1071 | an empty last field after a long one is missed |
| `Asn1.FetchInner` | src/kdc/kdc_util.c:1071-1115 | at the second level: values around are entered, a first field whose tag does not exceed that of the field around it starts the level, and the fields are found as at the first |
| `Asn1.WalkOver` | src/kdc/kdc_util.c:1107-1115 | at the level wanted a value that is no context field is passed over |
| `Asn1.NeverRepeated` | src/kdc/kdc_util.c:1099-1105 | no tag is ever found to be repeated: one that does not grow has started a new level before |
| `Asn1Indefinite.LeadsToEnd` | src/kdc/kdc_util.c:1009-1026 | for values nested to any depth in the indefinite form, the length found leads to the end of the value |
| `Asn1Indefinite.FindsClosing` | src/kdc/kdc_util.c:1013-1024 | going through the values inside ends exactly at their closing octets |
| `Asn1Indefinite.IndefiniteContents` | src/kdc/kdc_util.c:1083-1098 | a field in the indefinite form gives its values without the closing octets |
| `Asn1Indefinite.EmptyMisread` | src/kdc/kdc_util.c:1009-1026 | the indefinite form is never found to be empty, so an empty one is misread |
| `Asn1Indefinite.EmptyExample` | src/kdc/kdc_util.c:1009-1026 | an instance: length 6 instead of 2 |
| `Asn1Indefinite.LongLengthRefused` | src/kdc/kdc_util.c:1002-1005 | lengths of more than three octets are refused |
| `Asn1Indefinite.LengthOctets` | src/kdc/kdc_util.c:1001-1030 | the length octets, most significant first, in octets |
| `Asn1Indefinite.PrimitiveStops` | src/kdc/kdc_util.c:1072-1074 | an identifier that is not constructed ends the walk |

## Left out

- Encryption, checksums, key selection and message coding; the principal database; `find_alternate_tgs`.
- The checks on the header ticket inside the library's request reader (expiry, clock skew, addresses, replay) and the checksum over the request; the theorems on chains hold without them.
- The check of the transited type, the empty local-policy hooks, error texts, logging and allocation failure.
- Times and sizes of 32 bits: no overflow is modelled. "No limit" is a value above all times.
- rcp without `-p` or `-r`, into a target that is not an existing directory, or of a name that is empty, `.`, `..` or contains a slash (a source argument that ends in a slash has an empty name and is merged into the target); umask, several targets, names too long for the message buffer, and failures of ftruncate, utimes and buffer allocation in the sink.
- Effects of writing past the end of the space allocated in add_to_transited: the model stops there.
- A short read in rcp that is not noticed: between the two processes it is a file with the bytes that were sent.
- rcp and kprop processes are modelled as state machines over values: the recursion of `rsource` and `sink` is a list of work and a stack of directories, and open files and aliasing of buffers are not captured. The byte-moving loops of rcp are the methods of `RcpBlocks`.
- A failed allocation in the insertion into the lookaside cache, and freeing of its nodes.
- Failures to read the dump in kprop, and locking of its file.
- The secondary encrypted channel, which has the same code and its own state, and partial network reads and writes. A cipher whose plaintext is shorter than the length of its packet says is treated as a bad packet.
- RloginQuote.ReadsRoundTrip: is about bytes that would be restored in one read; reads that end inside a pair of other bytes are not covered.
- A lost connection or a failed read in rlogin's `writer`; the answer to its question is taken as an unsigned character.
- Window-size messages, terminal modes, signals and the old out-of-band channel of rlogin.
- Kerberos 4 compatibility code, krb524, GSS samples, network and process plumbing, build tools: none of them has much state or arithmetic of its own.
