# A verified model of the InfiniMail server core

InfiniMail receives mail for domains that their owners set up through an HTTP
API: it verifies the domain's DNS, obtains a TLS certificate over ACME, opens
the domain for mail, stores incoming messages with their attachments and tells
connected browsers about them over WebSockets. This project models those five
cores and proves what they promise over every run, every interleaving or every
input. The outside world (resolvers, CA, disk, database, clock, random tokens)
appears as arguments that may answer anything and fail anywhere.

`dafny verify dfyconfig.toml` checks everything.

| part | files | main results |
|---|---|---|
| WebSocket hub | `Hub`, `HubProtocol`, `HubHistory`, `HubFrames` | no interleaving of clients, hub and broadcasters sends on a closed channel or closes one twice; each client's notifications are exactly the broadcasts its own frames entitle it to |
| ACME client | `AcmeClient` | the polling loop, and how many certificates the orders pay for |
| Certificate files and SNI | `CertStorage`, `CertStore` | certificate and key on disk belong together; a saved certificate is the one served |
| Domain setup | `Lifecycle`, `LifecycleService`, `LifecycleFrame`, `LifecycleSafety`, `LifecycleProgress`, `LifecycleServing`, `LifecycleEffects`, `LifecycleAgreement`, `LifecycleChallenge`, `LifecycleExits`, `LifecycleWitness` | safety of every run of the endpoints, a way to `active` from every state a run reaches, and exactly when store and disk, and record and client, agree |
| SMTP delivery | `Address`, `Delivery`, `DeliveryClaims`, `DeliveryTables`, `Spelling`, `MailboxRace`, `FilePath`, `Intake` | what one DATA command adds, what each row says, which rows keep their files, one mailbox per address under racing calls, mail only for certified domains |
| Supporting loops | `DnsCheck`, `Renewal` | the DNS guide is what the verifier checks; starting and stopping the renewal loop |

`Basics.dfy` holds the options, the times and the string functions of Go's
`strings` package that the rest needs.

Code that changes state is written as classes and methods whose postconditions
equate the new state with a function of the old one (`Hub`, `Session`,
`Storage`, `CertificateStore`, `Service`); the claims are proved about these
functions. Concurrent code is an event list: an execution is a list of events
each of which is enabled where it happens, and a claim about all executions is a
claim about all interleavings.

## What the proofs brought to light

- The last write of a submission puts back the challenge that the step before
  it has cleared (internal/services/certificate_manager.go:821-828). That
  write-back is what keeps `certificate_issued` from being a dead end when the
  activation fails: the stored challenge can be verified and submitted again. A
  record with that status and no verifiable challenge could never become active
  (`ActiveReachableExactly`), and no run produces one (`RunsMeetNoDeadEnd`).
- Verification of the ACME record does not look at the status: a failed domain
  that was reset to `pending_dns` keeps its challenge and can go straight to
  `acme_challenge_ready` (`ResetSkipsDNS`). Its DNS had passed before, which is
  what `NothingPastUnverifiedDNS` states.
- An order is stored before its challenge is found, so an old challenge can
  stand beside a new order; completing it when that order lists no
  authorization indexes an empty list (`StaleChallengeCrashes`).
  `CrashExactlyOnEmptyOrder` says exactly which runs meet that.
- A certificate write that fails after changing the file leaves a certificate
  of one bundle beside the key of another (`DamagedWriteParts`); `SaveKeepsPairExactly` says exactly
  which faults do that.
- A domain named `mail.x` beside `x` is served its own certificate exactly when
  the database lists `x` before `mail.x` (`MailRowKeepsItsOwn`).
- Without auto-provisioning RCPT looks the recipient up as written, while
  delivery files it under its parsed parts. The message goes to the mailbox that
  RCPT found exactly when the recipient is spelled in normal form and that
  mailbox is still there (`GoesWhereFoundExactly`). The mailbox endpoint stores
  local parts as sent, so a mailbox `Foo` is found as `Foo` only, and its mail
  ends up in a new mailbox `foo` (`FooLeadsAstray`).
- A renewal that saves its pair and then cannot write its row leaves the new
  pair on disk and the old one served (`FailedRowKeepsServing`);
  `StoreAgreesExactly` says exactly when store and disk agree over a run.
- A request whose record cannot be written leaves the client with another
  challenge than the record (`LostRequestParts`);
  `SubmittedIsLookedUpExactly` says exactly when a submission is about the value
  that was looked up.
- With a base directory `/`, the paths that `Save` returns are refused by `Get`
  and `Delete` (`SavedPathAccepted`).
- Overlapping callers of the renewal service can leave two loops running and a
  `Stop` waiting (`OverlappingCallsLeaveTwoLoops`). A `Start` makes two loops
  possible exactly when a loop still runs or another `Start` is on its way
  (`StartRisksTwoExactly`, `OneLoopExactly`).

## Model

| member | source | states |
|---|---|---|
| HubCore.Hub.HandleUnregister | internal/websocket/hub.go:102-118 | the unregister case closes the channel once and removes the client from every mailbox, dropping mailboxes left empty |
| HubCore.Hub.HandleSubscribe | internal/websocket/hub.go:120-129 | the subscribe case adds the client, registered or not, and touches no other mailbox |
| HubCore.Hub.HandleUnsubscribe | internal/websocket/hub.go:131-142 | the unsubscribe case removes the client and drops a mailbox left empty |
| HubCore.Hub.HandleBroadcast | internal/websocket/hub.go:144-154 | every subscriber's channel is offered the broadcast once, whatever the order of the map; full channels drop it; all else is unchanged |
| HubProtocol.StepIsSafe | internal/websocket/hub.go:91-157 | every step of hub, clients and broadcasters keeps the invariant that ties each client's program counter to the hub's maps and its channel |
| HubProtocol.ServeKeepsClient | internal/websocket/hub.go:94-142 | handling any request keeps every client's invariant |
| HubProtocol.SubscriberIsOpen | internal/websocket/hub.go:144-154 | in a safe state every subscribed client is registered and its channel open |
| HubProtocol.NoInterleavingPanics | internal/websocket/client.go:44-70 | in every interleaving no channel is sent to after close or closed twice; every subscriber is registered and open; queues stay within 256; no empty subscriber set is kept |
| HubHistory.HistoryMirrorsState | internal/websocket/hub.go:102-142 | the hub's subscriptions and a client's queue length are determined by the history of handled requests, offers and drains |
| HubHistory.OffersFollowTakes | internal/websocket/hub.go:144-154 | every broadcast taken is offered exactly once to each client subscribed when it was taken, and to nobody else |
| HubHistory.AcceptedMeans | internal/websocket/hub.go:144-154 | the offers that found room are, in ascending order of their broadcasts, exactly those the history says had room |
| HubHistory.ChannelHoldsAccepted | internal/websocket/client.go:34-41 | what was drained plus what waits carries exactly the accepted broadcasts |
| HubHistory.NotificationsAreExact | internal/websocket/hub.go:102-154 | in every execution, a client's notifications are in order, without duplicates, exactly the broadcasts it was subscribed to when the hub took them and had room for; each was offered to it once, except one under delivery that has not reached it yet |
| HubFrames.ComplaintsExactly | internal/websocket/client.go:110-136 | exactly the malformed, unknown and mailbox-less frames are complained about, each with its words |
| HubFrames.SubscribedByFrames | internal/websocket/client.go:117-130 | in every execution, with the hub at its select, a client is subscribed to a mailbox if and only if its last frame on it was a subscribe and it is still reading |
| HubFrames.WantedByFrames | internal/websocket/client.go:117-130 | the broadcasts a client wants are those taken while its own frames ask for them |
| HubFrames.NotificationsFollowFrames | internal/websocket/hub.go:102-154 | in every execution, a client's notifications are, in order and without duplicates, exactly the broadcasts taken while its own frames asked for them and offered while it had room |
| HubFrames.TakenAsPosted | internal/websocket/hub.go:180-199 | the hub takes broadcasts in the order they were posted and loses none |
| AcmeClient.FindDns01 | internal/services/acme_client.go:205-212 | finds the first dns-01 challenge, and none exactly when none is offered |
| AcmeClient.Session.AskForChallenge | internal/services/acme_client.go:172-233 | registration, order, search for the challenge, and what is held after each way it can fail |
| AcmeClient.ChallengeContents | internal/services/acme_client.go:199-233 | a challenge handed out is the first dns-01 one offered, for this domain, with its record; order and challenge are held |
| AcmeClient.Session.CompleteDNSChallenge | internal/services/acme_client.go:239-342 | at most 60 polls; success exactly when the first decisive poll says valid and the order then becomes ready |
| AcmeClient.FirstDecidedPollSettles | internal/services/acme_client.go:281-340 | the first poll that is not undecided settles the validation, whatever later polls say |
| AcmeClient.SixtyPollsAreEnough | internal/services/acme_client.go:281-342 | sixty undecided polls are a refusal |
| AcmeClient.Session.IssueCertificate | internal/services/acme_client.go:417-508 | a certificate is returned only for a held, ready order, which it consumes together with the challenge; first block is the leaf, the rest the chain |
| AcmeClient.BundleContents | internal/services/acme_client.go:452-508 | a returned bundle has the first block as certificate, the new key as key, the expiry given, and certificate and chain together are all blocks in order, each at its place; it came from a held, ready order, which is given up |
| AcmeClient.RunKeepsCover | internal/services/acme_client.go:172-233 | every call keeps certificates plus held order within orders created |
| AcmeClient.CertificatesNeverOutrunOrders | internal/services/acme_client.go:417-508 | for every run and domain: certificates issued plus one for a held order never exceed orders created, and a held challenge has a held order |
| AcmeClient.OrdersPayForCertificates | internal/services/acme_client.go:498-500 | with a CA that does not reissue finalized orders, no order is exchanged for two certificates and a held order was exchanged for none; one finalized by the CA whose download failed counts as not exchanged |
| AcmeClient.StaleChallengeCrashes | internal/services/acme_client.go:273-274 | two requests, the second fruitless, leave a challenge of another order, and completing it crashes |
| AcmeClient.CrashedExactly | internal/services/acme_client.go:242-274 | completing a domain crashes exactly when the CA accepts and the domain has a challenge and an empty order |
| AcmeClient.AskKeepsMatch | internal/services/acme_client.go:190-220 | a further request keeps challenge and order together exactly when it places no order, gets the order already held, or finds its challenge |
| AcmeClient.StepCrashesExactly | internal/services/acme_client.go:190-220 | from a client that cannot crash on a domain, a call makes it one that can exactly when it is answered with an empty order while the domain has a challenge |
| AcmeClient.CrashExactlyOnEmptyOrder | internal/services/acme_client.go:242-274 | a run meets no client that can crash on a domain if and only if it starts with none and makes no such request |
| CertStorage.Storage.SaveCertificate | internal/services/cert_storage.go:71-117 | up to three writes with clean-up after each failure; success exactly when all needed writes worked |
| CertStorage.Storage.DeleteCertificate | internal/services/cert_storage.go:182-200 | removes the domain's directory if there is one; a removal that stops halfway leaves any of its files |
| CertStorage.SaveKeepsPairExactly | internal/services/cert_storage.go:86-117 | a save keeps certificate and key from one bundle if and only if none of the listed faults happens |
| CertStorage.DamagedWriteParts | internal/services/cert_storage.go:224-232 | a renewal whose certificate write fails after changing the file: what is read is the new certificate with the old key |
| CertStorage.RunKeepsPairsExactly | internal/services/cert_storage.go:71-117 | over every run of saves and deletes, files that both exist come from one save at every point if and only if they do at the start and no save meets a parting fault |
| CertStorage.RunKeepsPairs | internal/services/cert_storage.go:71-117 | in particular with clean write failures and successful clean-ups |
| CertStorage.SaveThenLoad | internal/services/cert_storage.go:138-180 | a successful save is read back, the chain too unless the bundle has none and an older one remains; other domains are untouched |
| CertStorage.FailedSaveLeavesNothing | internal/services/cert_storage.go:88-117 | a failed save with clean write failures and working removals leaves no certificate or key of its bundle; once the certificate was written nothing is left to load, before that what loaded still does |
| CertStore.CertificateStore.ReloadAll | internal/services/cert_store.go:194-225 | the map is exactly the last loadable row's certificate for each key; an unreadable table changes nothing |
| CertStore.CertificateStore.ExtractParentDomain | internal/services/cert_store.go:298-312 | the scan finds what follows the first dot |
| CertStore.CertificateStore.GetCertificate | internal/services/cert_store.go:150-190 | own entry, else the parent's, else the default |
| CertStore.CertificateStore.LoadAndAddCertificate | internal/services/cert_store.go:315-335 | both names get the loaded pair, or nothing changes |
| CertStore.UnloadableRowsChangeNothing | internal/services/cert_store.go:208-214 | reloading from the loadable rows alone gives the same map |
| CertStore.ReloadUnique | internal/services/cert_store.go:194-225 | the reload specification determines the map |
| CertStore.MailRowKeepsItsOwn | internal/services/cert_store.go:208-219 | a row `mail.x` beside a row `x` keeps its own certificate if and only if `x` is listed first, whatever the order of names |
| CertStore.ChildOf | internal/services/cert_store.go:298-312 | a host one label below d has parent d |
| CertStore.ParentExactly | internal/services/cert_store.go:298-312 | the parent is what follows the first dot, by position, and empty without one |
| CertStore.ServesInOrder | internal/services/cert_store.go:150-190 | own entry, else that of the name after the first dot, else the default |
| CertStore.HotReloadServes | internal/services/cert_store.go:150-190 | after a hot reload, which names get the new pair and that all others are answered as before |
| CertStore.SavedIsServed | internal/services/cert_store.go:315-335 | save then hot reload serves the saved pair for d, mail.d and children without an entry |
| Lifecycle.FoundValuesMeans | internal/services/certificate_manager.go:665-705 | the values found are the trimmed texts of all resolvers that answered, each once |
| LifecycleService.LookupTXT | internal/services/certificate_manager.go:665-705 | the nested loops compute those values |
| LifecycleService.Service.SetStatus | internal/services/domain_manager.go:105-131 | an invalid status is refused; otherwise status and message are written, the message kept only for failed |
| LifecycleExits.StatusWritten | internal/services/domain_manager.go:105-131 | the message is kept for failed alone and an invalid status is not written |
| LifecycleExits.ActivatesOnlyIssued | internal/services/domain_manager.go:198-220 | only an issued domain is activated, and is then open for mail |
| LifecycleService.Service.ActivateDomain | internal/services/domain_manager.go:198-220 | only certificate_issued becomes active |
| LifecycleService.Service.HandleVerifyDNS | internal/api/handlers/domain_handler.go:262-319 | legacy domains get a token, verified ones move to dns_verified |
| LifecycleExits.RecordAfterVerifyDNS | internal/api/handlers/domain_handler.go:262-319 | a waiting domain without a token gets the new one and waits on; with one, only a full verification moves it |
| LifecycleService.Service.HandleRetry | internal/api/handlers/domain_handler.go:441-545 | the status a retry writes, by status, requested target and error text |
| LifecycleExits.BlamesExactly | internal/api/handlers/domain_handler.go:481-492 | the default reset reads a message as a certificate problem if and only if one of four words stands somewhere in it, in any case |
| LifecycleExits.RetryAfterFailure | internal/api/handlers/domain_handler.go:467-496 | a failed domain goes where it is told to, else where its message points |
| LifecycleExits.RetryElsewhere | internal/api/handlers/domain_handler.go:497-530 | other domains go back to the last safe point or are left alone |
| LifecycleService.Service.RequestACMEChallengeFor | internal/services/certificate_manager.go:511-566 | the new challenge is stored with a day to live and its verification flag off |
| LifecycleExits.RecordAfterRequest | internal/services/certificate_manager.go:526-548 | a request that works files the CA's token and record, to expire a day after, not verified |
| LifecycleService.Service.HandleVerifyACMEDNS | internal/services/certificate_manager.go:569-662 | an expired challenge is renewed; a found value sets the flag and acme_challenge_ready |
| LifecycleExits.RecordAfterLookup | internal/services/certificate_manager.go:612-647 | a lookup in time marks the record if and only if some resolver showed the stored value |
| LifecycleExits.NoLookupWithoutChallenge | internal/services/certificate_manager.go:577-583 | without a complete challenge nothing happens |
| LifecycleExits.RecordAfterExpiry | internal/services/certificate_manager.go:585-600 | after its expiry a challenge is replaced by a new request, from dns_verified |
| LifecycleService.Service.HandleGetACMEStatus | internal/services/certificate_manager.go:842-930 | an expired pending challenge is renewed; nothing else changes |
| LifecycleService.Service.ClearACMEChallenge | internal/services/certificate_manager.go:933-952 | empties the four challenge fields |
| LifecycleService.Service.RecordCertificate | internal/services/certificate_manager.go:787-839 | row, clearing, then the write of the snapshot that restores the challenge |
| LifecycleService.Service.Submit | internal/services/certificate_manager.go:708-839 | what a submission leaves behind at each of its exits |
| LifecycleExits.RecordAfterSubmission | internal/services/certificate_manager.go:737-839 | for every exit, told from guards and answers alone, the record that remains: failed with the stage's own words, waiting, issued or active |
| LifecycleExits.NoSubmissionNoChange | internal/services/certificate_manager.go:716-735 | a submission that is not let through changes nothing |
| LifecycleExits.SubmissionConcludes | internal/services/certificate_manager.go:737-839 | a submission that did not crash and whose writes worked ends failed, issued or active |
| LifecycleExits.SubmittedRows | internal/services/certificate_manager.go:787-819 | the certificate row after a submission that saved: expiry moved, name and renewal flag kept, or a new row |
| LifecycleExits.RenewedRows | internal/services/certificate_manager.go:390-402 | the same after a renewal |
| LifecycleExits.DeletedGoes | internal/repository/domain_repository.go:102-111 | a deleted domain is gone with its row, and nothing else is |
| LifecycleService.Service.HandleSubmitACMEChallenge | internal/api/handlers/domain_handler.go:728-789 | a successful submission is followed by activation |
| LifecycleService.Service.Renew | internal/services/certificate_manager.go:353-410 | order, validation, certificate, files, row and hot reload, stopping at the first failure |
| LifecycleFrame.EndpointEditsItsDomain | internal/repository/domain_repository.go:87-99 | every endpoint changes at most the record it is called for, never its name |
| LifecycleSafety.RunKeeps | internal/services/certificate_manager.go:511-839 | the invariant of tables and history holds along every run |
| LifecycleSafety.NothingPastUnverifiedDNS | internal/api/handlers/domain_handler.go:262-319 | a domain past pending_dns, or with a challenge on record, has passed the DNS verification, and no challenge was stored before that |
| LifecycleSafety.ReadyMeansLookedUp | internal/services/certificate_manager.go:577-647 | acme_challenge_ready implies flag, challenge and a lookup that returned the stored value with no newer challenge; every submission follows such a lookup |
| LifecycleSafety.ActiveMeansCertified | internal/services/certificate_manager.go:737-830 | issued, active or open for mail implies a certificate row under the domain's name, active implies open for mail, and every row was written right after validation, issuance and save of its bundle |
| LifecycleSafety.DefaultRetryKeepsDNS | internal/api/handlers/domain_handler.go:467-496 | in every run, retrying a failed domain without a target goes back to dns_verified |
| LifecycleProgress.StepLeavesDead | internal/services/certificate_manager.go:569-600 | no endpoint changes a dead-end record |
| LifecycleProgress.AdvisedCallCloses | internal/api/handlers/domain_handler.go:441-545 | an advised call with everybody cooperating brings the domain closer to active |
| LifecycleProgress.AdviceReachesActive | internal/api/handlers/domain_handler.go:728-789 | following the advice reaches active within six calls, whatever the cooperating parties answer |
| LifecycleProgress.WayOut | internal/services/certificate_manager.go:511-662 | such a list of calls exists |
| LifecycleProgress.ActiveReachableExactly | internal/services/certificate_manager.go:708-839 | active is reachable by calls of any kind if and only if the record is not a dead end |
| LifecycleProgress.RunsMeetNoDeadEnd | internal/services/certificate_manager.go:822-828 | no run from an empty database produces a dead end |
| LifecycleProgress.NoDeadEnds | internal/api/handlers/domain_handler.go:262-319 | from every state a run reaches, at any time and whatever failed before, at most six cooperative calls make the domain active and open for mail |
| LifecycleServing.SubmissionServes | internal/services/certificate_manager.go:737-839 | a successful submission's bundle is the CA's first block with the new key, and what the store serves; names not resolving through the domain are answered as before |
| LifecycleServing.IssuedIsServed | internal/services/certificate_manager.go:737-839 | after a successful submission the handshake for the domain gets the CA's first block with the key made for it |
| LifecycleServing.RenewalServes | internal/services/certificate_manager.go:353-407 | a renewal that wrote the row of a bundle validated, obtained and saved it before, and the store serves it |
| LifecycleService.Service.RestartServer | cmd/server/main.go:115-145 | a new client, and a store loaded from the rows or empty if they cannot be read |
| LifecycleServing.RestartServes | internal/services/cert_store.go:194-225 | in every run, a restart serves each domain open for mail the pair in its directory, if it loads and no other row's mail name is that domain |
| LifecycleServing.RowNamesInOrder | internal/repository/certificate_repository.go:172-179 | the rows keep the order in which the database lists them |
| LifecycleEffects.SubmitEffects | internal/services/certificate_manager.go:708-839 | what a submission does to client, disk and store, by the guards it passes and the answers it gets |
| LifecycleEffects.RenewEffects | internal/services/certificate_manager.go:353-410 | the same for a renewal |
| LifecycleEffects.OtherEffects | internal/services/certificate_manager.go:511-662 | the other endpoints touch neither disk nor store, and the client only by the request for a challenge they make |
| LifecycleAgreement.StepPartsExactly | internal/services/certificate_manager.go:384-407 | a call leaves store and disk in agreement on a name if and only if it does not save without reloading, overwrite the entry with another domain's, or restart from rows that give another certificate or none |
| LifecycleAgreement.StoreAgreesExactly | internal/services/certificate_manager.go:479-486 | the same over every run and at every point of it |
| LifecycleAgreement.FailedRowKeepsServing | internal/services/certificate_manager.go:384-398 | a renewal that saved and could not write its row leaves the new pair on disk and the store as it was |
| LifecycleChallenge.StepHeard | internal/services/acme_client.go:172-233 | which calls set, drop or keep the challenge the client holds for a name |
| LifecycleChallenge.HeldExactly | internal/services/acme_client.go:217-219 | in every run the client holds a challenge with a given value if and only if the last call that said anything about it set that value |
| LifecycleChallenge.SubmittedIsLookedUpExactly | internal/services/certificate_manager.go:708-738 | for a domain ready to submit in any run, the stored value was looked up, and the challenge submitted is the one with that value if and only if the last word on the client's challenge set it |
| LifecycleChallenge.LostRequestParts | internal/services/certificate_manager.go:541-550 | a request whose record cannot be written leaves the client with the new challenge and the record with the old one |
| LifecycleWitness.ResetThenVerify | internal/services/certificate_manager.go:569-647 | any failed domain with a findable challenge goes through pending_dns to ready without a DNS verification |
| LifecycleWitness.ResetSkipsDNS | internal/api/handlers/domain_handler.go:467-496 | a run from an empty database that does so |
| Address.ParsedIsPlain | internal/smtp/session.go:252-271 | what parses has non-empty lower-case parts without @ |
| Address.RoundTripExactly | internal/smtp/session.go:252-271 | printing and parsing plain parts gives them back if and only if the ends survive the trimming |
| Address.SpellingsAgree | internal/smtp/session.go:252-271 | upper-case and bracketed spellings parse to the same parts |
| Address.NormalExactly | internal/smtp/session.go:252-271 | for all parts, the printed address is in normal form if and only if the parts are plain and their ends survive the trimming |
| Address.ExtraBracketStays | internal/smtp/session.go:253-256 | every address with two opening brackets parses to parts whose printed form is read as another address |
| MailboxRace.ExecutionKeeps | internal/repository/mailbox_repository.go:74-106 | in every interleaving of calls and plain inserts whoever returned has the row of its address, and every new row has one creator among the calls or is no call's |
| MailboxRace.SameMailboxForAll | internal/repository/mailbox_repository.go:74-106 | all calls for an address return the same mailbox, its only row; at most one created it, and exactly one if the row is new and not inserted by an endpoint or lost |
| MailboxRace.WorkingCallReturns | internal/repository/mailbox_repository.go:93-102 | losing the race is no failure: a call whose database calls work returns a mailbox after at most three steps of its own |
| Delivery.Session.Rcpt | internal/smtp/session.go:49-110 | the reply by address, domain and mailbox; only an accepted recipient is remembered |
| DeliveryTables.RepliesExactly | internal/smtp/session.go:49-110 | each reply of RCPT, exactly |
| DeliveryTables.UnreadIsTemporary | internal/smtp/session.go:66-104 | a table that cannot be read never makes a refusal permanent |
| Delivery.Session.CreateWithAttachments | internal/repository/message_repository.go:43-60 | message and rows all or nothing, every row under the message's id |
| Delivery.Session.ProcessEmail | internal/smtp/session.go:165-238 | one recipient's delivery with its skipped parts, rollback and broadcast |
| Delivery.Session.Data | internal/smtp/session.go:113-162 | all recipients in order, failures skipped, and the reply that does not tell |
| DeliveryClaims.ProcessMeans | internal/smtp/session.go:165-238 | a failed recipient adds no message, row or broadcast; a delivered one adds exactly its receipt, with the rows its parts tell |
| DeliveryClaims.RowsForTell | internal/smtp/session.go:199-219 | exactly the parts that could be saved have a row, in order, each with its own file name, content type, path and size |
| DeliveryClaims.SavedFilesExactly | internal/smtp/session.go:199-209 | the files written are exactly those of the parts that could be saved |
| DeliveryClaims.FiledAsSent | internal/smtp/session.go:135-138 | a message carries its own sender, or the envelope's if it names none |
| DeliveryClaims.DeliveredExactlyWhen | internal/smtp/session.go:165-238 | the exact condition for a recipient to be delivered to, with one transaction statement for the message and one per part that could be saved |
| DeliveryClaims.DataAddsExactlyTheReceipts | internal/smtp/session.go:113-238 | one message per successful recipient in its normalised mailbox with its rows under its id, nothing for the others, and each broadcast names a committed message of its mailbox |
| DeliveryClaims.RowsKeepTheirFiles | internal/repository/attachment_repository.go:68-87 | over every run of deliveries, created mailboxes and deletes each attachment row's file is on disk |
| DeliveryTables.DeletedMessage | internal/repository/message_repository.go:124-133 | deleting a message removes it and its rows, nothing else |
| DeliveryTables.DeletedAttachment | internal/repository/attachment_repository.go:68-87 | deleting an attachment removes its row and, if the disk lets it, its file |
| DeliveryTables.DeletedMailbox | internal/repository/mailbox_repository.go:151-160 | deleting a mailbox removes it with its messages, nothing else |
| DeliveryTables.MailboxesKeepBelonging | internal/models/mailbox.go:8-17 | along every run each mailbox's address is its local part at the name of the existing domain whose id it carries |
| Delivery.MailboxHandler.Create | internal/api/handlers/mailbox_handler.go:41-81 | the mailbox is stored under the local part as sent, in an open domain, if the address is new |
| DeliveryTables.PostRepliesExactly | internal/api/handlers/mailbox_handler.go:41-81 | each reply of the endpoint, exactly, and what a created mailbox holds |
| Spelling.TableNormalExactly | internal/api/handlers/mailbox_handler.go:67-73 | mailbox addresses stay in normal form along a run of deliveries, created mailboxes and deletes if and only if they start so and nothing creates a mailbox for parts that are not regular |
| Spelling.RcptNeedsNormalForm | internal/smtp/session.go:86-104 | in every table, without provisioning, a recipient whose mailbox exists is accepted if and only if it is spelled in normal form or that odd spelling is on file; the latter never after a run that files nothing oddly |
| Spelling.GoesWhereFoundExactly | internal/smtp/session.go:165-181 | a message accepted without provisioning and delivered later goes to the mailbox RCPT found if and only if the recipient is in normal form and that mailbox is still there |
| Spelling.GoesWhereFoundAtOnce | internal/smtp/session.go:165-181 | delivered at once, the spelling alone decides |
| Spelling.CapitalsLeadAstray | internal/api/handlers/mailbox_handler.go:67-73 | a mailbox created with capitals is accepted as spelled, refused in lower case, and its mail filed under a new mailbox |
| Spelling.FooLeadsAstray | internal/api/handlers/mailbox_handler.go:67-73 | the concrete mailbox Foo of a domain x |
| Spelling.OddMailboxFound | internal/smtp/session.go:86-104 | a mailbox filed under parts that are not regular is found under its own, not normal, spelling |
| FilePath.Ext | internal/storage/file_storage.go:108-111 | a suffix of the name that starts with its only dot and holds no slash; empty exactly when the last element has no dot |
| FilePath.CleanedLeadsSame | internal/storage/file_storage.go:55-72 | cleaning a relative path first does not change where it leads |
| FilePath.SavedIsClean | internal/storage/file_storage.go:108-124 | the returned path is directory, slash, name, already clean |
| FilePath.BelowBase | internal/storage/file_storage.go:71-84 | the joined path leads to the base's elements followed by directory and name |
| FilePath.SavedPathAccepted | internal/storage/file_storage.go:55-90 | the path Save returns is accepted, as the file Save wrote, if and only if the base is not the root |
| FilePath.StepsUp | internal/storage/file_storage.go:55-72 | a step up undoes the element before it, stays at the root, and is kept at the start of a relative path |
| FilePath.AcceptedIsBelowBase | internal/storage/file_storage.go:55-90 | an accepted path consists of the base's elements and further ordinary ones |
| Intake.TableHasNameIndex | internal/repository/domain_repository.go:58-68 | in every run names identify domains |
| Intake.CreatedAsSent | internal/services/domain_manager.go:76-102 | a new domain is stored under the trimmed lower-case form of what was sent, waiting for DNS with its token |
| Intake.AnyCaseFindsDomain | internal/services/domain_manager.go:76-84 | in every run names are lower case and trimmed, and RCPT knows a stored domain in any case, bracketed or not |
| Intake.MailOnlyForCertified | internal/smtp/session.go:49-84 | in every run RCPT accepts only addresses of open domains with an earned certificate row, and with provisioning all of those |
| DnsCheck.CheckRecord | internal/services/dns_verifier.go:232-326 | one record's check succeeds exactly when some answer matches |
| DnsCheck.MatchesExactly | internal/services/dns_verifier.go:241-326 | an MX answer matches up to case and one dot at the end of either side, an A answer up to outer white space, a TXT answer as the value with white space around it, all by characters |
| DnsCheck.VerifyWithRetry | internal/services/dns_verifier.go:195-229 | success exactly when an attempt within the limit verifies before any cancellation; otherwise an error is reported |
| DnsCheck.CancellationEnds | internal/services/dns_verifier.go:198-221 | after a cancellation no further attempt counts |
| DnsCheck.VerifyDNS | internal/services/dns_verifier.go:143-192 | what is verified, record by record, is the guide; each unverified record is reported |
| DnsCheck.NamesAgree | internal/services/domain_manager.go:179-195 | the guide's copies of the name functions agree with the verifier's |
| DnsCheck.GuideSays | internal/services/domain_manager.go:134-195 | the guide's names and values for a domain without and with the mail prefix |
| DnsCheck.GuideVerifies | internal/services/domain_manager.go:134-195 | with the guide's records published, the mail host in any case and with or without a final dot, all three verify if and only if parent name, host, address and token are not empty and the token does not end in white space |
| DnsCheck.VerifiedWasAnswered | internal/services/dns_verifier.go:195-326 | a verified record was answered with a matching value at the guide's name within the allowed attempts |
| Renewal.Service.LockedStart | internal/services/cert_renewal.go:52-60 | Start's critical section |
| Renewal.Service.LockedStop | internal/services/cert_renewal.go:71-79 | Stop's critical section |
| Renewal.NoDoubleClose | internal/services/cert_renewal.go:52-110 | in every interleaving no stop channel is closed twice, running implies an open channel, and the wait group counts the loops |
| Renewal.SingleCallerTakesTurns | internal/services/cert_renewal.go:52-83 | one caller's calls never overlap |
| Renewal.StopWaitsForTheLoop | internal/services/cert_renewal.go:71-83 | when effective calls do not overlap, at most one loop lives and Stop returns only after it ended |
| Renewal.StopCanReturn | internal/services/cert_renewal.go:93-110 | a waiting Stop is never stuck then |
| Renewal.OverlappingCallsLeaveTwoLoops | internal/services/cert_renewal.go:52-110 | an execution of two callers with two live loops and a blocked Stop |
| Renewal.LoopsPossibleExactly | internal/services/cert_renewal.go:52-110 | after any execution, n loops can come to run together without a further effective Start if and only if n loops run or are on their way |
| Renewal.StartRisksTwoExactly | internal/services/cert_renewal.go:52-64 | an effective Start makes two loops possible if and only if a loop runs or another Start is on its way |
| Renewal.OneLoopExactly | internal/services/cert_renewal.go:52-110 | two loops are possible at no point of an execution if and only if all its effective Starts are clear of that; then at most one ever runs |
| Renewal.ReleasedStopSawNoLoop | internal/services/cert_renewal.go:71-83 | every Stop is let go only at a moment without a loop, and a loop can start afterwards if and only if a Start had not yet raised the wait group |

## Left out

- The PUT override and rename of a domain and creation without a domain manager: they set the active flag or the name freely, so the lifecycle is stated over the setup endpoints.
- The GenerateCertificate endpoint: its handler and its service demand statuses that exclude each other, so it changes nothing. DeleteCertificate and SetAutoRenew of the certificate manager and ForceCheck have no caller in the server.
- HTTP binding and responses, routing, CORS, authentication, rate limiting, configuration, the setup logger and its pages, DNS export formats, progress texts: no deep property.
- MIME parsing, HTML stripping, X.509, PEM, CSR, keys, real DNS and TLS: the parsed e-mail, the PEM blocks, the TXT value, and which pairs parse, are inputs.
- SQL and GORM internals: unique indexes, cascades and atomic transactions are taken as given, and each endpoint of the domain setup is one atomic step.
- Non-ASCII letters: lower-casing is that of ASCII; white space is that of Unicode.
- Certificate directories: different domain names are taken to have different directories, and modes and the directory's own creation appear only as faults.
- RunKeepsPairs: needs failed writes to leave the file as it was and clean-ups to succeed; RunKeepsPairsExactly says exactly what happens otherwise.
- OrdersPayForCertificates: needs a CA that does not answer a new order with a finalized one; CertificatesNeverOutrunOrders holds for every CA.
- ReadyMeansLookedUp: its second half is about SubmitACMEChallenge; a renewal asks the CA to validate without looking the record up, as the source does.
- StoreAgreesExactly: one parser for the whole run, so whether a pair loads does not change over time.
- SubmissionServes: different parsers of one pair at different times are not modelled; a pair that parses is served.
- RowsKeepTheirFiles: file names are fresh (random UUIDs), and file contents are not modelled, because all recipients share one reader per attachment.
- The random mailbox endpoint appears as the plain one with some local part; its random string is not modelled.
- SameMailboxForAll: no row is deleted meanwhile, and delivery itself uses get-or-create as one step.
- A message's sender name, snippet and HTML body are carried with the text body as one field.
- The write pump's pings and batching, the mutex around the hub's read-only counters, and write errors on the connection: a drained item counts as sent.
- The renewal check itself (which certificates are near expiry) and the ticker: a check is one call of RenewCertificate per certificate, and lifecycle runs contain such calls in any order.
- Data races on unlocked fields and the run-time panic on reuse of a wait group: field accesses are atomic.
- A restart during an endpoint call: a restart is a step of its own between calls.
- The nil checks of arguments that have no nil in the model.
