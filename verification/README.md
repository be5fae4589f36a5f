# A verified model of an infrastructure appliance

The system is a small network appliance: a DHCP lease registry, a private ACME certificate
service whose proofs of control are bound to DHCP leases, a DNS server for the leased names, an
LDAP directory, and an NFS export. This project models the parts of it that keep state or decide
something intricate, in Dafny, and proves what they promise. `dafny verify dfyconfig.toml` checks
everything.

Two styles are used together. A component that keeps state is first described as a transition
system over values, with one step for each region the server runs under a lock, and everything the
step takes from outside (clock, random values, write outcomes, answers of other parties) as part of
the event. Theorems about whole runs are proved there, and for each kind of step which requests are honoured and
what is on record afterwards, record by record. Beside it stands a class with the fields, maps and
loops of the implementation, each of whose methods is proved to be a step of that system.

- **Leases** (`Hostname`, `Leases`, `LeaseSafety`, `LeaseRuns`, `LeaseEffects`, `LeaseRestore`,
  `LeaseManager`): the allocator, its tables and its file. Writes may fail, expiry is never written back, and the process may restart at
  any point.
- **Certificates** (`Acme` and the other `Acme...` modules, `RollingHistory`, `Validator`, `Csr`):
  accounts, orders, authorizations, challenges, issuance, revocation and quotas over one snapshot
  that is pruned and committed by renaming a file. An outbound validation is two steps, so rollover,
  deactivation, expiry, failed writes, crashes and restarts may fall between them. `Acme` has the
  transition system, `AcmeInvariant` to `AcmeSteps` its inductive invariant, `AcmeRuns` to
  `AcmeQuota` the theorems about runs, `AcmeReady`, `AcmeEffects`, `AcmeReplies`, `AcmeAdmission`,
  `AcmeAccounts`, `AcmeRevoking` and `AcmeFiles` which requests are honoured and what they do,
  `AcmeStory` and `AcmeBoundary` whole runs written out, and `AcmeStore`, `AcmeSnapshots` and
  `AcmeServer` the implementation.
- **DNS** (`Ipv4`, `DnsNames`, `Dns`, `DnsReverse`, `DnsServe`, `DnsAnswers`): answer selection with
  wildcards and empty non-terminals, reverse zones, and the agreement of forward and reverse answers. Names are
  label sequences; the registry is asked with their text.
- **LDAP** (`LdapFilter`, `LdapBer`): three-valued filters, greedy substring matching, and the
  structural check of incoming messages.
- **Nonces** (`Nonces`) and **NFS handles** (`NfsHandles`): two stores in which several structures
  must stay in agreement.

## What turned out not to hold as one might expect

- A quota window counts the stamps after its left end only. `AcmeQuota.SourceQuota` is about
  half-open windows. A closed window can hold more than the quota: `AcmeBoundary.NineInAClosedDay` is a
  run in which it does, `AcmeQuota.ClosedWindow` and `AcmeQuota.ClosedAccountWindow` say exactly which
  windows of which runs do, and `AcmeQuota.BoundaryAdmits` tells it from the past before the request.
- The DNS server asks the forward zone before the reverse zones. With a domain that is an ancestor of
  a reverse name no PTR record is served. `DnsServe.ArpaDomainHidesPtr` shows it for `arpa`, which
  `DnsServe.ArpaTogether` shows to be accepted; `DnsServe.ReverseAnswerIff` gives the exact condition.
- Renaming a path to itself drops that path's NFS handle, although the file has not moved.
  `NfsHandles.RenameFollows` gives the exact condition for every path.
- Leases and quarantines survive a restart only if a lease file is configured.
  `LeaseRuns.ExclusiveIffDurable` and `LeaseRuns.QuarantineIffDurable` prove both directions, the failing
  one by the runs of `LeaseRuns.ForgottenLease` and `LeaseRuns.ForgottenQuarantine`.

## Model

| member | source | states |
|---|---|---|
| `Hostname.NormalizeHostname` | internal/lease/hostname.go:7-22 | the result is "" or a canonical name (valid labels, strictly below the domain, root dot), and a canonical name is returned unchanged |
| `Hostname.NormalizeIdempotent` | internal/lease/hostname.go:7-22 | normalising twice is normalising once, and the non-empty fixed points are exactly the canonical names |
| `Hostname.NormalizeIff` | internal/lease/hostname.go:7-22 | exactly what becomes of a name: its lower-case form with the root dot if that is canonical, else for a single label the label below the domain if that is, else nothing |
| `Hostname.SingleLabel` | internal/lease/hostname.go:10-14 | a valid label, in any case and with or without a final dot, becomes label, dot, domain, dot |
| `Hostname.BelowIsLabelSuffix` | internal/lease/hostname.go:13-17 | the textual test "ends in a dot and the domain" holds exactly when the label sequence is strictly below the domain's |
| `Leases.LowestFree` | internal/lease/manager.go:187-192 | the lowest unoccupied address of the range, or nothing exactly when all are occupied; ends also for a range that ends at 255.255.255.255 |
| `LeaseSafety.FileRoundTrip` | internal/lease/persistence.go:26-141 | a written file is accepted at any later time and gives back exactly the unexpired leases and quarantines, without offers |
| `LeaseSafety.GrantKeeps` | internal/lease/manager.go:217-262 | a grant keeps addresses exclusive, client entries well formed, and live host names unique and unreserved |
| `LeaseSafety.OfferKeeps` | internal/lease/manager.go:148-202 | an offer keeps the same table invariant |
| `LeaseRuns.StepKeeps` | internal/lease/manager.go:148-295 | every operation, with any outcome of its write, keeps the tables consistent and the file equal to the live tables |
| `LeaseRuns.CrashRefinement` | internal/lease/persistence.go:26-99 | in every run, wherever it is interrupted, restoring the file at any later time succeeds and yields exactly the live leases and quarantines of the memory image, with no offers |
| `LeaseRuns.ExclusiveOwnership` | internal/lease/manager.go:217-262 | after a committed lease the address is neither offered nor granted to another client until it expires or its owner gives it up, across failed writes and restarts |
| `LeaseRuns.QuarantineRespected` | internal/lease/manager.go:281-295 | a declined address is offered and granted to nobody before its quarantine ends, across restarts |
| `LeaseRuns.RestartForgets` | internal/lease/persistence.go:26-35 | without a lease file a restart leaves empty tables, and any client is then offered any pool address it asks for |
| `LeaseRuns.ExclusiveIffDurable` | internal/lease/persistence.go:26-35 | exclusive ownership holds of all runs with restarts if and only if a lease file is configured |
| `LeaseRuns.ForgottenLease` | internal/lease/persistence.go:26-35 | the run that shows it: a commit, a restart, and an offer of the leased address to a second client |
| `LeaseRuns.QuarantineIffDurable` | internal/lease/persistence.go:26-35 | quarantines are respected in all runs with restarts if and only if a lease file is configured |
| `LeaseRuns.ForgottenQuarantine` | internal/lease/persistence.go:26-35 | the run that shows it: a commit, a decline, a restart, and an offer of the declined address |
| `LeaseRuns.ReachableTables` | internal/lease/manager.go:370-403 | in every reachable state a client holds at most one address, an address has at most one holder, and registered names are canonical, unreserved and unique |
| `LeaseRuns.OfferComplete` | internal/lease/manager.go:148-202 | an offer reports exhaustion exactly when the client holds nothing and no pool address is available; otherwise it keeps its address, or gets the available one it asked for, or else the lowest available one |
| `LeaseEffects.OthersUntouched` | internal/lease/manager.go:148-295 | no call changes the entries of other clients, except that those that have run out are gone; only a decline changes a quarantine that has not ended |
| `LeaseEffects.GivenUpIff` | internal/lease/manager.go:265-295 | a release or decline is carried out exactly if the client has the address now and the file could be written |
| `LeaseEffects.GivenUpIsFree` | internal/lease/manager.go:265-295 | in every run, after an answered release or decline nobody has the address; a released one is available to every client, a declined one is in quarantine for the full time; with a file the same holds after a restart at any later time |
| `LeaseEffects.GrantedIff` | internal/lease/manager.go:217-262 | a commit is granted exactly if the client is valid, the address is in the pool, nobody else has it now, it is not in quarantine, and the file could be written |
| `LeaseEffects.GrantRecords` | internal/lease/manager.go:217-262 | a granted commit records this address for the full duration, under the name asked for unless it is reserved or another live lease has it, and uses the offer up |
| `LeaseEffects.OfferRecords` | internal/lease/manager.go:148-202 | a granted offer is recorded for its full duration with the name asked for, and the client's lease is as it was |
| `LeaseEffects.OfferReserves` | internal/lease/manager.go:148-202 | in every run an offered address is handed to nobody else until the offer runs out, the client takes it up or gives it up, or the process restarts |
| `LeaseRestore.RestoredIsSafe` | internal/lease/persistence.go:26-99 | whatever a file contains, if it is accepted the restored tables satisfy the invariant all operations rely on, and nothing in them has expired |
| `LeaseRestore.RefusedIff` | internal/lease/persistence.go:45-79 | another version, an entry that is not well formed, or two live leases that share client, address or name are refused, and without quarantines nothing else is |
| `LeaseManager.Manager.ExpireAll` | internal/lease/manager.go:405-423 | the deletion loops leave exactly the entries that have not expired |
| `LeaseManager.Manager.OccupiedBy` | internal/lease/manager.go:370-386 | the loops collect exactly the addresses held by other clients or in quarantine |
| `LeaseManager.Manager.OfferWithFallback` | internal/lease/manager.go:148-202 | is the offer step of the transition system, including the pool scan |
| `LeaseManager.Manager.CommitWithFallback` | internal/lease/manager.go:217-262 | is the commit step: refused, not persisted and unchanged, or granted and persisted |
| `LeaseManager.Manager.Release` | internal/lease/manager.go:265-278 | is the release step, whose effect `LeaseEffects.GivenUpIsFree` states |
| `LeaseManager.Manager.Decline` | internal/lease/manager.go:281-295 | is the decline step |
| `LeaseManager.Manager.FindName` | internal/lease/manager.go:299-314 | returns the live lease registered under the normalised name, if any |
| `LeaseManager.Manager.FindIP` | internal/lease/manager.go:346-358 | returns the live lease of the address, if any |
| `LeaseManager.Manager.FindNameAtOrBelow` | internal/lease/manager.go:320-343 | says whether a live registered name is at or below the given one |
| `LeaseManager.Manager.Persist` | internal/lease/persistence.go:101-141 | writes the encoded tables (sorted by address, without offers) or leaves the file alone |
| `LeaseManager.Manager.Restore` | internal/lease/persistence.go:26-99 | a new process comes up exactly when the restart step succeeds, with that step's tables: the checking loops fill them from the file, or there is no file |
| `AcmeInvariant.ConsistentLoads` | internal/acmeserver/store.go:79-178 | a snapshot that satisfies the inductive invariant passes the whole start-up check |
| `AcmeFiles.CertificatesMatchOrders` | internal/acmeserver/store.go:79-178 | in any file that passes the check, certificates and completed orders belong to each other one to one, valid authorizations have a proof, and keys and serials are unique |
| `AcmeFiles.AuthsServeOneOrder` | internal/acmeserver/store.go:104-124 | in any file that passes, no authorization serves two orders or two names of one |
| `AcmeFiles.ForeignFileRefused` | internal/acmeserver/store.go:79-90 | a file of another version, domain or authority is refused and left alone |
| `AcmeInvariant.PruneEstablishes` | internal/acmeserver/store.go:260-294 | pruning a consistent snapshot leaves a consistent one without dead orders |
| `AcmeSteps.StepKeeps` | internal/acmeserver/orders.go:201-329 | every locked region, with any write outcome, crash or restart, keeps file and memory consistent and each processing challenge matched by one validation that is out |
| `AcmeRuns.EverySnapshotLoads` | internal/acmeserver/store.go:79-178 | in every run the state file and the snapshot in memory pass the start-up check, so a restart never refuses a file the server wrote |
| `AcmeRuns.ReachableOrders` | internal/acmeserver/orders.go:201-329 | in every reachable state an authorization is processing exactly if its validation is out (at most 32 are), it belongs to its order, pending implies its order is pending, and a ready order has only valid authorizations |
| `AcmeReady.ReadyExactlyWhenValid` | internal/acmeserver/orders.go:299-313 | in every reachable state, in memory and in the file, an order that is pending or ready is ready if and only if every one of its authorizations is valid |
| `AcmeRuns.ReachableCertificates` | internal/acmeserver/store.go:150-168 | in every reachable state each certificate belongs to exactly one order, which is valid, names it, and asked for exactly its names; serial numbers are unique |
| `AcmeStory.CertificatesHappen` | internal/acmeserver/orders.go:13-414 | for every allowed name and lease owner there is a run that ends with a certificate for the name in the file, and goes on to its revocation and a list with its serial number |
| `AcmeStory.NamesAreAllowed` | internal/acmeserver/orders.go:27-46 | any label that is not built in is an allowed name below any domain that leaves room for it |
| `AcmeRuns.StepStores` | internal/acmeserver/store.go:192-237 | the file changes exactly when a snapshot was prepared and renamed, and then holds that snapshot, pruned |
| `AcmeIssuance.ValidWasProved` | internal/acmeserver/orders.go:255-313 | every authorization ever stored as valid was proved by an earlier validation of the run whose signing key was the active account's key at its finishing step, before expiry |
| `AcmeIssuance.ProofIsStored` | internal/acmeserver/orders.go:287-316 | conversely, a proof that meets those conditions is stored whenever the write gets as far as the rename |
| `AcmeIssuance.RolloverReopens` | internal/acmeserver/orders.go:268-286 | a validation that finishes after a key rollover gives the challenge back and leaves the order as it was, whether or not the write succeeds |
| `AcmeIssuance.StepFlights` | internal/acmeserver/orders.go:219-257 | which validations are out after any step of any kind: a challenge request whose snapshot was prepared and synced adds one, its return or the end of the process takes one away, nothing else changes them |
| `AcmeIssuance.OneFlightAtATime` | internal/acmeserver/orders.go:219-253 | a challenge request prepares a change only for a pending authorization that has no validation out, at the request of its active account |
| `AcmeIssuance.FlightsDoNotOverlap` | internal/acmeserver/orders.go:219-257 | in every run, between two validations that go out for one authorization the first comes back or the process stops |
| `AcmeIssuance.ValidationInterleavings` | internal/acmeserver/orders.go:201-329 | in every run, for every interleaving: the rollover property, the conditions under which a validation goes out (none is out for that authorization), and exactly which are out after each step |
| `AcmeIssuance.CertificateWasIssued` | internal/acmeserver/orders.go:331-414 | every certificate ever recorded was issued by an earlier step for a ready order of its own active account, with exactly the order's names, each backed at that moment by a valid unexpired authorization whose target is the current lease owner |
| `AcmeIssuance.CertificateProvenance` | internal/acmeserver/orders.go:365-414 | each name of a recorded certificate goes back to an earlier outbound validation that proved the very target holding the name's lease at issuance |
| `AcmeOrders.IssuedIsRecorded` | internal/acmeserver/orders.go:398-411 | conversely, a finalization that meets all those conditions puts exactly that leaf on record, unrevoked, if it has not expired already |
| `AcmeOrders.OneCertificatePerOrder` | internal/acmeserver/orders.go:352-361 | between two issuances under one order identifier a new order was opened under it, however often finalization is retried |
| `AcmeEffects.NewAccountTakesEffect` | internal/acmeserver/accounts.go:34-81 | an accepted new account is on record under the drawn identifier with the given key and active from now on; the others keep key and status |
| `AcmeEffects.KnownKeyAnswer` | internal/acmeserver/accounts.go:34-52 | a key that is known already is answered with its own account, and nothing is stored |
| `AcmeReplies.OnlyExisting` | internal/acmeserver/accounts.go:34-60 | an unknown key is refused and nothing changes if only an existing account is asked for |
| `AcmeReplies.UpdateIff` | internal/acmeserver/accounts.go:107-148 | an update is accepted exactly if it is signed with the active account's key and, when it changes something, the write succeeds |
| `AcmeEffects.DeactivationTakesEffect` | internal/acmeserver/accounts.go:121-148 | after an accepted deactivation no request of the account is honoured, it has no open order and no pending authorization, and the orders of others are as they were |
| `AcmeAccounts.DeactivatedForGood` | internal/acmeserver/accounts.go:107-148 | in every run no request of a deactivated account is ever honoured again, across failed writes, crashes and restarts, unless a new account is created under its identifier |
| `AcmeReplies.KeyChangeIff` | internal/acmeserver/accounts.go:203-229 | a key change is accepted exactly if it is signed with the active account's key, no account has the new key, and the write succeeds |
| `AcmeEffects.KeyChangeTakesEffect` | internal/acmeserver/accounts.go:218-229 | after an accepted key change the account answers to the new key and not to the old one, in memory and in the file, and no other key changed |
| `AcmeEffects.ForgottenIff` | internal/acmeserver/store.go:260-294 | exactly which accounts are forgotten when a snapshot is stored: those without a live order whose last activity is thirty days back; the others keep key and status |
| `AcmeAccounts.ActiveAccountStays` | internal/acmeserver/store.go:260-294 | in every run an account whose request was honoured less than thirty days ago is on record, as long as the process has not stopped in between |
| `AcmeEffects.NewOrderTakesEffect` | internal/acmeserver/orders.go:69-102 | an accepted order is on record as asked for, pending for a day, with one pending authorization per name under the drawn identifiers and tokens; the other orders are as they were |
| `AcmeReplies.AuthDeactivationIff` | internal/acmeserver/orders.go:162-199 | an authorization is deactivated exactly at the request of its own active account, if the write succeeds |
| `AcmeEffects.AuthDeactivationTakesEffect` | internal/acmeserver/orders.go:178-199 | after it the authorization is deactivated or gone, its order if it was open is gone, and the other orders are as they were |
| `AcmeReplies.StartIff` | internal/acmeserver/orders.go:209-253 | a validation goes out exactly if its active account acknowledges an open challenge: authorization and order pending and unexpired, none out for it, fewer than 32 out, and the write succeeds |
| `AcmeEffects.FailureEndsOrder` | internal/acmeserver/orders.go:287-316 | a validation that proves nothing ends its order and the authorization with it |
| `AcmeEffects.FinalizeOutcome` | internal/acmeserver/orders.go:362-414 | a ready order whose proof has lapsed is given up and nothing is issued; otherwise, when the authority signs, the order is complete with exactly this certificate and request |
| `AcmeEffects.FinalizeAgain` | internal/acmeserver/orders.go:352-361 | asking again with the same request is answered as before, and nothing is stored |
| `AcmeOutside.CertifiedNameIsLeased` | internal/acmevalidate/validator.go:87-105 | in every run of the lease registry, each certified name is carried at issuance by the live lease of exactly one client, the one control was proved through |
| `AcmeOutside.ProvedNameIsLeased` | internal/acmevalidate/validator.go:111-179 | in every run of the certificate service and the lease registry: a validation that proves a claim was sent out for the same name and token; its target was the sole holder of the name at the lookup before the fetch and at the one after it; and the fetched text is that token with the thumbprint of the account's present key |
| `AcmeIssuance.WasSent` | internal/acmeserver/orders.go:240-257 | in every run each validation that is out was sent by an earlier step, on behalf of the request of that step, and has not come back since |
| `AcmeIssuance.SentForSame` | internal/acmeserver/orders.go:254-263 | in every run, from the step that sends a validation out until it comes back, the authorization keeps its name, order, account and token as long as it is on record |
| `AcmeOutside.LookupFindsHolder` | internal/acmevalidate/validator.go:87-105 | in every run of the lease registry, what a lookup finds is the live lease of exactly one client |
| `AcmeOutside.SignedNamesKeepContract` | internal/pki/csr.go:163-195 | signing a matching request for an order of a consistent snapshot yields exactly the authorized names |
| `AcmeOutside.OrderedNameSignable` | internal/pki/csr.go:197-214 | every name that can be ordered can be signed, except the directory's own name and names that read as an address |
| `AcmeRevocation.RevocationLasts` | internal/acmeserver/revocation.go:68-82 | in every run a stored revocation stays on record, unchanged, until the certificate expires |
| `AcmeRevocation.ServedListsRevoked` | internal/acmeserver/revocation.go:135-203 | once a revocation is stored, every list served before the certificate expires names its serial number |
| `AcmeRevocation.CrlNumbersIncrease` | internal/acmeserver/revocation.go:186-202 | in every run a later stored list is the same list or has a larger number (section 5.2.3 of RFC 5280) |
| `AcmeRevocation.RefreshSucceeds` | internal/pki/csr.go:218-243 | in every reachable state a list can be made exactly when its number can grow and the authority delivers one that is not out of date; the entry checks never fail |
| `AcmeRevoking.RevocationTakesEffect` | internal/acmeserver/revocation.go:44-87 | in every run, after an accepted revocation the record of exactly this leaf has this time and reason, in memory and in the file, the stored list names its serial number, and no other certificate changed |
| `AcmeReplies.RevokeIff` | internal/acmeserver/revocation.go:44-102 | a revocation is accepted exactly if the leaf is on record and unrevoked, the signer may ask for it, the reason is allowed, a list can be made, and the write succeeds |
| `AcmeRevoking.RevocationWasAsked` | internal/acmeserver/revocation.go:89-133 | every revocation ever stored was asked for earlier in the run with the certificate's own key, the issuing account's active key, or the active key of an account with a current proof for every name |
| `AcmeRevoking.ListedWasAsked` | internal/acmeserver/revocation.go:165-203 | every entry of a list that was ever stored goes back to such a request |
| `AcmeRevoking.ServedIsCurrent` | internal/acmeserver/revocation.go:135-162 | a served list is due in more than a minute, or was made in this step, is not out of date, and names exactly the certificates that are revoked and unexpired |
| `AcmeReplies.FreshListServed` | internal/acmeserver/revocation.go:135-162 | a list that is due in more than a minute is served as it is, and nothing is stored |
| `AcmeQuota.SourceQuota` | internal/acmeserver/limits.go:36-86 | in every run, pruning and restarts included, any window (t-24h, t] has at most 8 account creations and any window (t-1h, t] at most 32 order creations of one source |
| `AcmeQuota.AccountQuota` | internal/acmeserver/orders.go:55-68 | in every run any window (t-24h, t] has at most 32 orders of one account, even if the account is forgotten and its identifier drawn again |
| `AcmeQuota.RetryAfterSuffices` | internal/acmeserver/limits.go:47-52 | after a refusal by the window test, waiting the announced seconds passes that test if the source creates nothing meanwhile |
| `AcmeAdmission.RetryAfterIsTight` | internal/acmeserver/limits.go:47-52 | and it is no longer than necessary: a whole second earlier the test still refuses |
| `AcmeAdmission.WindowExact` | internal/acmeserver/limits.go:36-52 | in every reachable state the window test refuses a source if and only if the run has a full quota of its creations in the window that ends now |
| `AcmeAdmission.NewAccountAdmitted` | internal/acmeserver/accounts.go:53-81 | a request with a new key is accepted if and only if its source created fewer than eight accounts in the past day, there is room, and the write succeeds |
| `AcmeAdmission.NewOrderAdmitted` | internal/acmeserver/orders.go:48-102 | a request for an order is accepted if and only if it is signed by an active account, its source has fewer than 32 orders in the past hour, the account fewer than 32 in the past day and fewer than 32 open, there is room, and the write succeeds |
| `AcmeQuota.ClosedWindow` | internal/acmeserver/limits.go:26-52 | in every run a window [t-24h, t] or [t-1h, t] with both ends holds more than the quota if and only if one creation of the source falls on its left end and the one a quota later on its right end |
| `AcmeQuota.ClosedAccountWindow` | internal/acmeserver/orders.go:55-68 | the same condition, both ways, for the orders of one account |
| `AcmeQuota.BoundaryAdmits` | internal/acmeserver/limits.go:36-86 | at any reachable state, from its past alone: when the first of the last full quota of creations is exactly a window old the window test admits one more, and an admitted creation overfills the closed window ending in it if and only if that is so |
| `AcmeBoundary.NineInAClosedDay` | internal/acmeserver/limits.go:36-86 | a concrete run with nine account creations of one source in a day that includes both ends |
| `RollingHistory.SpacedCount` | internal/acmeserver/limits.go:26-52 | a history in which events `max` places apart are a window apart has at most `max` events in any window |
| `RollingHistory.ClosedCount` | internal/acmeserver/limits.go:26-52 | and more than `max` in a window with both ends exactly when two events `max` places apart fall on its two ends |
| `RollingHistory.TracksAppend` | internal/acmeserver/limits.go:69-80 | admitting an event while fewer than `max` are recent keeps that spacing, although older stamps were forgotten |
| `AcmeStore.RecentTimes` | internal/acmeserver/limits.go:26-34 | the loop keeps exactly the stamps after the cutoff, in order |
| `AcmeStore.AllowCreation` | internal/acmeserver/limits.go:36-67 | the checks and the counting loop decide as the model's quota test does, with the same refusal |
| `AcmeStore.PruneState` | internal/acmeserver/store.go:260-294 | the three deletion loops compute the model's pruned snapshot |
| `AcmeStore.LoadsState` | internal/acmeserver/store.go:79-178 | the checking loops, with their sets of seen names, keys and serials, accept exactly what the start-up predicate describes |
| `AcmeStore.RecoverState` | internal/acmeserver/store.go:68-74 | the loop resets exactly the interrupted challenges |
| `AcmeSnapshots.CheckIdentifiers` | internal/acmeserver/orders.go:27-46 | accepts exactly the identifier lists that are distinct ASCII names of the domain with an eligible lease, and returns them canonical |
| `AcmeSnapshots.RefreshList` | internal/acmeserver/revocation.go:165-203 | the collecting loop makes the list of all revoked unexpired certificates, or fails as the authority would |
| `AcmeServer.Server.CommitState` | internal/acmeserver/store.go:192-237 | the rename is the commit point: memory follows the file, and pending activity is cleared |
| `AcmeServer.Server.CreateAccount` | internal/acmeserver/accounts.go:34-81 | is the new-account step |
| `AcmeServer.Server.ChangeAccount` | internal/acmeserver/accounts.go:107-148 | is the account-update step; deactivation takes open orders and pending authorizations along |
| `AcmeServer.Server.ChangeKey` | internal/acmeserver/accounts.go:203-229 | is the key-change step |
| `AcmeServer.Server.SubmitOrder` | internal/acmeserver/orders.go:13-102 | refuses unacceptable identifiers without any change, and otherwise is the new-order step |
| `AcmeServer.Server.ReadResource` | internal/acmeserver/orders.go:144-160 | is the read step: only an active account's activity is noted, without a write |
| `AcmeServer.Server.DeactivateAuthorizationOf` | internal/acmeserver/orders.go:162-199 | is the authorization-deactivation step |
| `AcmeServer.Server.BeginChallenge` | internal/acmeserver/orders.go:209-253 | is the first locked region of a challenge |
| `AcmeServer.Server.EndChallenge` | internal/acmeserver/orders.go:257-316 | is the second locked region of a challenge, whose effects `AcmeReady.ReadyExactlyWhenValid`, `AcmeIssuance.ProofIsStored` and `AcmeEffects.FailureEndsOrder` state |
| `AcmeServer.Server.FinalizeOrder` | internal/acmeserver/orders.go:331-414 | is the finalize step |
| `AcmeServer.Server.RevokeCertificate` | internal/acmeserver/revocation.go:44-87 | is the revocation step, whose effect `AcmeRevoking.RevocationTakesEffect` states |
| `AcmeServer.Server.ServeList` | internal/acmeserver/revocation.go:135-162 | is the list step: a fresh enough list is served, another is made and stored first |
| `AcmeServer.Server.Start` | internal/acmeserver/store.go:19-76 | is the start-up step: check, recover, save |
| `Csr.CsrNames` | internal/pki/csr.go:163-195 | succeeds exactly when the request asks for the authorized names, each once, in any order and spelling; the result is the sorted authorized names whatever the request's order |
| `Csr.SortedUnique` | internal/pki/csr.go:192-194 | sorting leaves no freedom: equal multisets sort to the same sequence |
| `Csr.SignedNames` | internal/pki/csr.go:197-214 | for names in the form orders keep them, the certificate carries exactly the authorized names |
| `Csr.CertificateNameIff` | internal/pki/csr.go:197-214 | exactly which names may stand in a certificate, in any spelling: ASCII host names below the domain other than the built-in ones and addresses, each in canonical form |
| `Validator.LookupFindsOwner` | internal/acmevalidate/validator.go:87-105 | a successful lookup is a provable target: the only client whose live lease carries that host name, with its address |
| `Validator.LookupIff` | internal/acmevalidate/validator.go:87-105 | exactly when a lookup finds a client: its live lease is registered under the name, the name is not built in or an address, and the leased address is a usable host of the subnet |
| `Validator.ValidateIff` | internal/acmevalidate/validator.go:111-179 | a validation succeeds exactly when both lookups find the target and in between the host answers 200 with at most 4096 bytes: the key authorization and trailing blanks |
| `DnsNames.HasNameFinds` | internal/lease/manager.go:320-343 | for names in the zone, the registry finds exactly the registered names and their ancestors |
| `DnsNames.LookupNameFinds` | internal/lease/manager.go:299-314 | for names below the domain, the registry finds exactly the live lease registered under that name |
| `Dns.ExistsIff` | internal/dnsserver/server.go:390-393 | in the zone, static names and the registry together decide existence: being an owner name or an ancestor of one |
| `Dns.AncestorsExist` | internal/dnsserver/server.go:373-386 | existence is closed under ancestors |
| `Dns.ClosestEncloserUnique` | internal/dnsserver/server.go:378-386 | the longest existing ancestor is unique |
| `Dns.Server.constructor` | internal/dnsserver/server.go:102-124 | the suffix loop makes the static names exactly the root, the domain, the two service names, and all ancestors of records |
| `Dns.Server.LookupLocalAddress` | internal/dnsserver/server.go:361-388 | the declarative answer of section 3.3.1 of RFC 4592: own record or lease, else no data if the name exists, else the wildcard at the closest encloser and never a broader one; the final fall-through is unreachable |
| `Dns.Server.LookupExternalAddress` | internal/dnsserver/server.go:397-416 | an override answers its exact name, or a non-existing name through the wildcard at its closest static ancestor |
| `Dns.LeaseTTLBound` | internal/dnsserver/server.go:433-439 | a lease's record expires no later than the lease and lives at most the configured time |
| `DnsReverse.BlockInside` | internal/dnsserver/server.go:457-459 | an aligned block lies in the subnet as a whole exactly when the prefix is no longer than the block's and its first address is in the subnet |
| `DnsReverse.ReverseAuthority` | internal/dnsserver/server.go:443-466 | the shortest octet-aligned zone of at least one octet that encloses the name and lies wholly in the subnet, for every prefix length; and the address exactly for full canonical reverse names |
| `DnsReverse.ReverseRoundTrip` | internal/dnsserver/server.go:443-466 | the reverse name of an address maps back to it and is local exactly when the subnet contains it |
| `DnsReverse.ReverseNameCanonical` | internal/dnsserver/server.go:443-466 | reverse names are canonical query names |
| `DnsReverse.ReverseNameOf` | internal/dnsserver/server.go:452-463 | a name that maps to an address is that address's reverse name |
| `DnsServe.AnswerLocal` | internal/dnsserver/server.go:316-357 | apex records, address or PTR record, name error and negative authority exactly as the declarative response |
| `DnsServe.Serve` | internal/dnsserver/server.go:281-296 | the forward zone answers first, then the subnet's reverse zones, then overrides |
| `DnsServe.ForwardAnswer` | internal/dnsserver/server.go:361-388 | the A question for a live leased host name gives its address, for no longer than the lease |
| `DnsServe.ReverseAnswerIff` | internal/dnsserver/server.go:332-344 | the PTR question for a live leased address gives its host name, for no longer than the lease, if and only if the forward zone does not contain the reverse name |
| `DnsServe.ArpaDomainHidesPtr` | internal/dnsserver/server.go:285-288 | with the domain `arpa`, in any accepted configuration, no response to the PTR question of any live named lease has a PTR record |
| `DnsServe.ArpaTogether` | internal/dnsserver/server.go:70-86 | a concrete configuration with that domain is accepted by the DNS server together with a lease registry |
| `DnsServe.FirstLease` | internal/lease/manager.go:217-262 | below any domain that leaves room for it a first commit gives a live lease with a registered name, so such leases exist |
| `DnsAnswers.ServiceNameAnswer` | internal/dnsserver/server.go:361-364 | the response for the two service names is the server's address |
| `DnsAnswers.RecordAnswer` | internal/dnsserver/server.go:365-367 | the response for a configured name is its record |
| `DnsAnswers.EmptyNonTerminalAnswer` | internal/dnsserver/server.go:373-375 | the response for an empty non-terminal has no error and no record, whatever wildcard stands above it |
| `DnsAnswers.WildcardAnswer` | internal/dnsserver/server.go:376-388 | the response for a name that does not exist: the wildcard directly below its closest existing ancestor, and a name error if there is none there |
| `DnsAnswers.ApexAnswer` | internal/dnsserver/server.go:316-331 | the responses at the apex, with the zone's own records |
| `DnsAnswers.OverrideResponse` | internal/dnsserver/server.go:299-314 | outside all zones: the exact override, the wildcard at the closest static ancestor, or no response of this server |
| `DnsAnswers.UnknownReverseAnswer` | internal/dnsserver/server.go:332-357 | an address of the subnet without a live named lease: no record, an uncached negative answer, and a name error unless it is the zone's apex |
| `LdapFilter.GreedyDecides` | internal/ldapserver/filter.go:114-167 | greedy left-to-right matching succeeds exactly when the value splits into the fragments in order without overlap, for any number of fragments, empty ones included |
| `LdapFilter.OrderIrrelevant` | internal/ldapserver/filter.go:61-82 | the value of AND and OR does not depend on the order of the operands |
| `LdapFilter.DeMorgan` | internal/ldapserver/filter.go:61-82 | De Morgan's laws hold for undefined values too, and double negation is the identity |
| `LdapFilter.AndValue` | internal/ldapserver/filter.go:59-78 | AND is true if all operands are, false if some operand is, and undefined otherwise |
| `LdapFilter.OrValue` | internal/ldapserver/filter.go:59-78 | OR is true if some operand is, false if all operands are, and undefined otherwise |
| `LdapFilter.NotValue` | internal/ldapserver/filter.go:63-68 | NOT exchanges true and false |
| `LdapFilter.PresentValue` | internal/ldapserver/filter.go:31-42 | a presence test is undefined for unknown attributes, and else true exactly if the entry has a value |
| `LdapFilter.NameEquality` | internal/ldapserver/filter.go:87-106 | equality on a distinguished-name attribute: undefined for a value that is no name, else by name |
| `LdapFilter.IntegerEquality` | internal/ldapserver/filter.go:87-106 | equality on an integer attribute: undefined for a value that is no number, else by number |
| `LdapFilter.TextEquality` | internal/ldapserver/filter.go:87-106 | equality on other attributes: undefined for unknown ones, else by text up to case |
| `LdapFilter.SubstringsValue` | internal/ldapserver/filter.go:130-167 | a substring test: undefined for unknown, name and number attributes, else true exactly if some value splits into the fragments |
| `LdapFilter.ParseIntReads` | internal/ldapserver/filter.go:92-95 | the integers that are read are those of 64 bits in decimal, with or without a sign, leading zeros allowed |
| `LdapFilter.TagMeaning` | internal/ldapserver/filter.go:27-78 | context tags 0, 1, 2 and 7 are AND, OR, NOT and presence |
| `LdapFilter.LeafMeaning` | internal/ldapserver/filter.go:79-129 | context tags 3 and 4 are equality and substrings, and 0, 1 and 2 inside are initial, any and final fragments |
| `LdapFilter.UnknownAttributesHidden` | internal/ldapserver/filter.go:27-112 | entries that agree on the known attributes cannot be told apart by any filter |
| `LdapFilter.EncodeCompile` | internal/ldapserver/filter.go:27-135 | every expressible filter has a packet that compiles to it |
| `LdapFilter.CompiledWellFormed` | internal/ldapserver/filter.go:124-129 | whatever compiles has its substring fragments in an allowed order |
| `LdapFilter.CompileFilter` | internal/ldapserver/filter.go:27-112 | the branches and loops compile a packet completely or refuse it, as the recursive definition does, and what they compile the matcher can rely on |
| `LdapFilter.CompileFragments` | internal/ldapserver/filter.go:114-129 | the checking loop accepts exactly the fragment lists in an allowed order |
| `LdapFilter.Evaluate` | internal/ldapserver/filter.go:60-112 | the short-circuiting loops give the value of the filter tree for every entry, which `LdapFilter.AndValue` and its neighbours describe operand by operand |
| `LdapBer.ParseSound` | internal/ldapserver/protocol.go:61-108 | what is accepted is a forest of definite-length elements that tiles the bytes |
| `LdapBer.ParseComplete` | internal/ldapserver/protocol.go:61-108 | every well-formed forest is read back from its bytes, so the reading is unique |
| `LdapBer.FitsIffTiled` | internal/ldapserver/protocol.go:61-108 | acceptance is the existence of such a forest within the depth and node bounds (section 5.1 of RFC 4511) |
| `LdapBer.LengthOctets` | internal/ldapserver/protocol.go:70-80 | a length in four octets, most significant first, is read back |
| `LdapBer.ValidateBer` | internal/ldapserver/protocol.go:61-108 | the recursion with the shared node counter accepts exactly such byte strings and counts their nodes; it ends on every input |
| `LdapBer.ValidateMessage` | internal/ldapserver/protocol.go:54-57 | a whole message passes exactly when a well-formed forest of depth below 32 and at most 4096 nodes tiles it |
| `Nonces.RunKeeps` | internal/acmeauth/auth.go:80-111 | in every run the store holds distinct nonces in expiry order, never more than 8192 |
| `Nonces.AcceptedOnce` | internal/acmeauth/auth.go:101-111 | a nonce is accepted only inside its lifetime and only once per issue |
| `Nonces.FreshNonceAccepted` | internal/acmeauth/auth.go:80-111 | a nonce first presented inside its lifetime is accepted if at most 8191 were issued after it |
| `Nonces.AcceptedIff` | internal/acmeauth/auth.go:80-111 | every presentation in every run: a nonce is accepted if and only if an earlier step issued it less than its lifetime ago and it has been neither presented nor displaced since |
| `Nonces.FirstPresentation` | internal/acmeauth/auth.go:80-111 | a first presentation inside the lifetime of the latest issue is accepted if and only if no issuing step in between found the queue full with this nonce in front |
| `Nonces.DisplacedNonceRefused` | internal/acmeauth/auth.go:88-95 | a nonce dropped from the front of a full queue is refused from then on in every run, unless it is issued again |
| `Nonces.BoundIsTight` | internal/acmeauth/auth.go:88-95 | 8191 cannot be improved: after 8192 issues in a row the nonce is refused |
| `Nonces.Verifier.Nonce` | internal/acmeauth/auth.go:80-99 | the eviction loop makes room as specified, and map and queue stay in agreement |
| `Nonces.Verifier.Consume` | internal/acmeauth/auth.go:101-111 | removes the nonce from both structures and answers whether it was outstanding and unexpired |
| `NfsHandles.RunKeeps` | internal/nfsserver/filesystem.go:105-121 | in every run the entry of each tracked path names that path and is found by its own handle |
| `NfsHandles.WrapGives` | internal/nfsserver/filesystem.go:105-121 | a file is given a handle if and only if its path is tracked for this very file or the table is not full: the path's own one with nothing changed, or the one drawn, while every other path keeps its own |
| `NfsHandles.RenameFollows` | internal/nfsserver/filesystem.go:233-262 | after a successful rename the handle of a tracked path old+s is current at new+s if and only if old+s is not itself the target |
| `NfsHandles.RenameSpares` | internal/nfsserver/filesystem.go:249-261 | handles outside the renamed tree stay current unless their path was the target or was taken over |
| `NfsHandles.SelfRenameDropsHandle` | internal/nfsserver/filesystem.go:233-262 | renaming a path to itself loses that path's handle |
| `NfsHandles.WhatDrops` | internal/nfsserver/filesystem.go:220-262 | exactly which handles each operation drops |
| `NfsHandles.DroppedNeverResolves` | internal/nfsserver/filesystem.go:278-310 | a dropped handle resolves at no later point of any run, whatever files there are |
| `NfsHandles.HandleFollows` | internal/nfsserver/filesystem.go:233-262 | in every run a handle that no step drops is current at the path obtained by composing the renames, with its file unchanged |
| `NfsHandles.ResolvesTo` | internal/nfsserver/filesystem.go:278-310 | what a current handle resolves to at any later point of any run: nothing once a step has dropped it, and otherwise the path the renames lead to, exactly as long as its own file is there |
| `NfsHandles.HandleKeepsFile` | internal/nfsserver/filesystem.go:278-310 | whatever a handle resolves to later is a path holding the very file it was given out for |
| `NfsHandles.WrappedResolves` | internal/nfsserver/filesystem.go:105-121 | a handle just given out resolves to its path |
| `NfsHandles.Filesystem.WrapFile` | internal/nfsserver/filesystem.go:105-121 | is the wrap operation on the two maps that share entries, whose effect `NfsHandles.WrapGives` states |
| `NfsHandles.Filesystem.RemovePath` | internal/nfsserver/filesystem.go:228-231 | is the remove operation |
| `NfsHandles.Filesystem.RenamePath` | internal/nfsserver/filesystem.go:246-262 | the loops that take entries out, rename them through their alias and put them back are the rename operation |
| `NfsHandles.Filesystem.ResolveHandle` | internal/nfsserver/filesystem.go:278-310 | resolves as specified |

## Left out

- One clock reading stands for all readings within a locked region or a DNS query, and clocks do not go back within a run.
- Random identifiers are assumed not to collide with those currently in use; serial numbers not to repeat among recorded certificates.
- X.509, JWS, JWK thumbprints, JSON and PEM are opaque values; the authority's answer is bound by the contract in `Acme.SigningContract`, whose name part is proved for `Csr.CsrNames`.
- The 64 MiB limit on the state file and encoding errors are among the writes that fail before the rename.
- Contact addresses, problem documents, identifier types, account URLs and HTTP routing do not appear in the ACME records.
- A pending authorization whose order is missing occurs in no reachable snapshot; the model answers it without a change, where the code would write an empty order.
- The migration of state files from before activity was recorded is not modelled; runs start from an empty machine.
- A revocation list's entries are a set; their order in the encoded list is not modelled.
- The HTTP fetch inside a validation is one external answer, a status and a body; dialing and timeouts are not modelled, nor is the check that token and key authorization are well formed.
- A crash that loses a rename not yet synced to the directory is not modelled: once renamed, a new state file or lease file is what a restart reads. Stored revocations and list numbers could otherwise go back.
- Key algorithm checks, extension checks of a signing request and the sampling of serial numbers are not modelled.
- DNS forwarding, truncation, EDNS, escaped labels and transfer refusals are not modelled, nor is the parsing of configured record names.
- LDAP distinguished names, Unicode case folding and lower case are parameters of the filter model; search scope, binding and directory contents are not modelled.
- The reading of an LDAP message header from the socket is not modelled; the check starts from the complete message.
- NFS paths, open files and confinement to exports are outside; the operating system's answers are parameters of the handle table.
- `Nonces.Verifier`: list elements are entries of a sequence, so their identity as heap cells is not modelled.
- Sockets, listeners, timeouts, logging, the web gateway, NTP, TFTP, PXE and configuration decoding are not modelled: they carry requests to the components above and keep none of their state.
