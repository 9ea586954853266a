# WireGuard dashboard: a verified model

This project models the parts of the WireGuard dashboard (and of the MCP server that reads it) that hold state
across calls, and proves what they keep. `dafny verify dfyconfig.toml` checks everything.

## What is modelled

**The peer set.** `clients.Service` keeps one set of peers in four places: the SQL table, the live interface, the
store object, and (at boot) the seed manifest. `ClientTable` gives the table its per-statement UNIQUE checks and the
three loops of `replaceClientsTx` for any map iteration order; `ReplaceOrder` says exactly when the transaction
commits. `PeerService` describes every operation as a step on table, live text, store object and write-through
latch; everything the code does not decide (clock, database faults, the outcomes of Load, Save and Apply, what a
failed Save or Apply leaves behind, map orders) is a `World` argument, so each theorem is for all of them.
`BootMachine` cuts `ReconcileFromStore` into the atomic steps between its lock releases and interleaves them with
the poller's rechecks, which are already running at boot, and with the API's operations after it. `ServiceClass` and
`ClientsDb` are the objects themselves, updated in place and proved against those steps. `Admission`, `PeerOutcomes`,
`PeerUniqueness`, `PeerConvergence`, `UpdateSaves`, `WriteThrough` and the `Boot` modules say what the steps guarantee,
`LocalBoot` the same for a boot without a store; `OneClient` holds the smallest inputs at which they do not.

**Addresses.** `Ipv4`, `Alloc`, `ServerNetText` and `Validate` hold dotted quads, the allocator in wrapping 32-bit
arithmetic, the server net's text and the validators. `Rendering` holds the peer order and the server configuration
text, `LiveConfig` what that text says of a table's rows, and `LiveText` reads it back.

**Alerts.** `AlertMachine` is the per-key state machine and the grammar of its log, `AlertEval` a whole tick,
`AlertRuns` and `AlertCap` what holds over runs of ticks, `AlertClass` the evaluator with its machines on the heap.
`StatusRing`, `Dispatch` and `AlertLoop` carry the events on to the status view and the bounded delivery queue, and
`LoopRuns` runs them side by side with the worker.

**Metrics text.** `PromText` prints the exposition of `GET /metrics` (Prometheus text format 0.0.4), `PromParse` and
`PromReport` parse it as the MCP server does, `PromTolerance` says what the parser makes of lines the printer never
prints, `PromGroups` how the printed lines are grouped, and `PromLines`, `PromRoundTrip`, `PromRecovery` and
`PromTheorem` prove the round trip for arbitrary label bytes. Number formatting is a `Codec` whose round-trip laws are
assumptions of the theorem; `FaithfulCodecExists` shows they can be met.

**Handshakes, sessions, tokens.** `Handshakes`, `HandshakeRuns` and `HandshakeRestarts` cover the recorder's cache and
table, `History` the session split, `Tokens` the delete-confirmation gate.

## Where the code and its own comments differ

The model follows the code. Each case comes with an input at which the comment fails and with the exact condition under
which it holds.

- `AllocateAddress` on 255.255.255.255/32 wraps past its guard and hands out 0.0.0.0/32 (`Alloc.WrapExample`);
  `Alloc.AllocateKeepsPromise` says exactly when the documented promise holds.
- The comment on `ReplaceClients` gives two peers trading addresses as the case that deletes-first makes possible. Two
  surviving keys trading addresses fail in every order (`ReplaceOrder.SwapNeverCommits`); what commits is
  characterised by `ReplaceOrder.ReplaceCommitsIff`.
- `transferCapObservation` calls a reset below the baseline the only way back. A reading that stays at or above the
  baseline, with both totals back under the cap, recovers the key too (`AlertRuns.FallAboveBaselineRecovers` is such a
  run). The comment holds of a run exactly when no such reading follows one over the cap
  (`AlertCap.OnlyResetsRecoverIff`).
- `StoreReady` is documented to go false only on a hard load error. A boot drops it just as well on a failed heal, seed,
  count, listing or apply, on a refused list and on a UNIQUE failure: `BootLatch.BootLatchesIff` gives the exact
  condition, `BootLatch.DownOnlyOnHardErrorIff` when the comment holds, `BootLatch.FailedHealDropsLatch` an input at
  which it fails. The recheck then re-arms the latch without distinguishing the causes, so the next mutation overwrites
  a list that boot could not restore (`BootLatch.UnrestoredListIsOverwritten`), a valid one included
  (`BootLatch.SwappedListIsOverwritten`). The list survives in the table exactly if the restore failed only after its
  commit, or the table was that list already (`BootLatch.RestoreLandsIff`).
- Startup convergence (re-applying the table once at boot) is what the comments on `Reconcile` describe. In cloud mode a
  boot that heals the store from the table applies nothing, so it can return nil with the table not live
  (`BootConverges.HealedBootIsNotLive`). `BootConverges.BootConvergesIff` says exactly when a nil boot has converged.
- Restored peers are documented to be enabled; that this makes repeating a boot visible is not. After a boot that healed
  the store, the next one enables disabled peers and clears notes that the first left alone
  (`BootAgain.DisabledClientComesBack`; `BootAgain.SuchClientsExist`: every server net admits such a client). It alters
  no row exactly when the first boot filled the table or the table had no such row (`BootAgain.BootIsIdempotentIff`).
- `Update` is documented to write through only when a stored field changed. It does so when one is supplied
  (`UpdateSaves.UpdateSavesIff`), changed or not (`UpdateSaves.RenameToSelfSaves`); `UpdateSaves.SavesOnChangeIff` says
  exactly when the comment holds.
- The comment on `collect` calls re-emission of handshakes after a restart idempotent. A restart can add a pair
  (`HandshakeRestarts.FallBackAcrossRestart`), and it can replace a stored client name by the public key when the
  manifest cannot be read at the first tick after it (`HandshakeRestarts.NameLostAcrossRestart`).
  `HandshakeRestarts.RestartInvisibleIff` says exactly when the pairs stay as they would have been, and
  `HandshakeRestarts.RestartKeepsRowsIff` when the whole rows do.

## Model

| member | source | states |
|---|---|---|
| ReplaceOrder.ReplaceCommitsIff | dashboard/internal/db/db.go:863-898 | For every table, want-set and iteration order, the transaction commits if and only if wanted names and addresses are distinct and no survivor is updated before another survivor whose old name or address it takes. |
| ReplaceOrder.SomeOrderCommitsIff | dashboard/internal/db/db.go:863-898 | Some iteration order commits if and only if, besides, no group of survivors waits on itself in a cycle. |
| ReplaceOrder.SwapNeverCommits | dashboard/internal/db/db.go:795-801 | Two surviving keys that trade addresses fail in every order. |
| ReplaceOrder.InsertPhase | dashboard/internal/db/db.go:887-898 | Once deletes and updates are done, inserts never collide if the wanted names and addresses are distinct, and a finished insert phase leaves the exact want-set. |
| ReplaceOrder.ReplaceIsExact | dashboard/internal/db/db.go:810-901 | Every commit leaves exactly the wanted rows, field by field: survivors keep id, key and created_at, hold the wanted name, address, enabled and note, and keep updated_at exactly if none of those four is new; newcomers get fresh ids; the UNIQUE columns still hold. |
| BootOutcome.CommittedReplaceRows | dashboard/internal/db/db.go:863-898 | The same in terms of the entries: a committed bulk replace leaves each entry enabled, without a note, under its old id and created_at if it had any, and stamped now if it is new or changed. |
| BootOutcome.ReplaceAllOutcome | dashboard/internal/clients/service.go:371-402 | A ReplaceAll that returns nil committed those rows and they are live; a failed one changed nothing, or committed and was then not applied, applied with an error, or could not list the rows afterwards. |
| ClientsDb.ReplaceClientsTx | dashboard/internal/db/db.go:830-901 | The three loops carry out the specified transaction for the orders they are given. |
| ClientsDb.UpdateLoop | dashboard/internal/db/db.go:872-885 | The update loop stops at the first UNIQUE violation and otherwise performs every needed update. |
| ClientsDb.InsertLoop | dashboard/internal/db/db.go:887-898 | The insert loop stops at the first UNIQUE violation and otherwise performs every needed insert. |
| ClientsDb.DB.ReplaceClients | dashboard/internal/db/db.go:810-825 | All or nothing: the new table on success, the old one, id counter included, on any failure. |
| ClientsDb.DB.InsertClient | dashboard/internal/db/db.go:749-755 | Inserts under a fresh id unless a UNIQUE column is taken, in which case nothing changes. |
| ClientsDb.DB.UpdateClient | dashboard/internal/db/db.go:763-770 | Rewrites the row with that id unless another row holds its name, key or address; without such a row, no effect and no error. |
| ClientsDb.DB.DeleteClient | dashboard/internal/db/db.go:774-780 | Removes the row of that name and no other; a missing name is no error. |
| ClientsDb.DB.ListClients | dashboard/internal/db/db.go:711-740 | The rows in the one order that address then id allows, whatever order the scan yields. |
| Listing.ListHasRows | dashboard/internal/db/db.go:707-713 | The listing holds exactly the table's rows, each once, sorted by address then id. |
| Listing.ListIsUnique | dashboard/internal/db/db.go:707-713 | Any sorted arrangement of the rows is that listing: the ordering leaves no freedom. |
| Listing.ListAscends | dashboard/internal/db/db.go:707-713 | Written out: the address texts ascend byte by byte, and rows of one address by id. |
| Ordering.LessIsByteOrder | dashboard/internal/clientstore/clientstore.go:88-98 | String order is ascending byte order: a proper prefix first, else the smaller byte where the two first differ. |
| Ipv4.ParsePrint | dashboard/internal/clients/alloc.go:116-135 | Parsing a printed address gives the number back, so distinct numbers have distinct text. |
| Ipv4.PrintParse | dashboard/internal/clients/alloc.go:116-135 | Every accepted quad is the printed form of its number. |
| Ipv4.ParseHostCidr | dashboard/internal/clients/alloc.go:124-135 | The "/32" form handed out parses back to its host. |
| ServerNetText.ParseServerNetIff | dashboard/internal/clients/alloc.go:39-52 | A non-empty value is accepted if and only if it is a canonical dotted quad, a slash and a prefix length of at most 32; the result is that host's masked subnet with the host reserved. |
| ServerNetText.EmptyMeansDefault | dashboard/internal/clients/alloc.go:39-42 | The empty value means 172.16.15.1/24 and is never an error. |
| ServerNetText.ServiceNet | dashboard/internal/clients/service.go:78-85 | A malformed value falls back to the default, so the service's net is always valid. |
| Alloc.BoundsAreUnwrapped | dashboard/internal/clients/alloc.go:98-114 | In wrapping arithmetic, /0 included, base and broadcast are the first and last address of the subnet. |
| Alloc.ContainsIff | dashboard/internal/clients/validate.go:53-69 | The subnet holds exactly the addresses from its base on, as many as its size. |
| Alloc.ReservedSet | dashboard/internal/clients/alloc.go:83-94 | The loop collects the server and every parseable used entry, and nothing else. |
| Alloc.AllocateAddress | dashboard/internal/clients/alloc.go:61-79 | The scan terminates without overflowing its counter and returns what the specification of the search says. |
| Alloc.AllocateKeepsPromise | dashboard/internal/clients/alloc.go:54-79 | The result is the lowest free host, or exhaustion exactly when there is none, if and only if the prefix is not 255.255.255.255/32 or everything below the top address is reserved. |
| Alloc.WrapExample | dashboard/internal/clients/alloc.go:70-76 | On 255.255.255.255/32 with no clients, 0.0.0.0/32 is handed out. |
| Alloc.AllocateSucceedsWhenRoom | dashboard/internal/clients/alloc.go:61-79 | With fewer used entries plus the server than hosts, allocation succeeds. |
| Validate.ValidAddressIsCanonical | dashboard/internal/clients/validate.go:53-69 | An accepted address is already in the canonical form the service stores. |
| Validate.HostCidrIsValid | dashboard/internal/clients/validate.go:53-69 | The canonical text of every host in the subnet is accepted. |
| Validate.ValidAddressIff | dashboard/internal/clients/validate.go:53-69 | A text is accepted if and only if it is the canonical form of an address from the base up to base plus size, exclusive. |
| Validate.ValidateOverride | dashboard/internal/clients/validate.go:129-147 | The loop over used entries decides the override as specified. |
| LiveText.NamesArePlain | dashboard/internal/clients/validate.go:41-50 | A well-formed name is one word and stands in a metric label as it is. |
| Validate.OverrideMeaning | dashboard/internal/clients/validate.go:129-147 | An override is granted if and only if it is valid, not the server and numerically unused; it is then the operator's own text and unused as text. |
| Validate.ValidateSet | dashboard/internal/clients/validate.go:88-123 | One pass with three seen-sets accepts if and only if every entry is valid and names, keys and addresses are pairwise distinct. |
| PeerUniqueness.AddNeverViolatesUnique | dashboard/internal/clients/service.go:191-246 | From every table that meets the UNIQUE constraints, an Add past its own checks never fails the INSERT on a UNIQUE column and never gets the server's address. |
| PeerUniqueness.UpdateNeverViolatesUnique | dashboard/internal/clients/service.go:263-323 | Likewise for Update, for every subset of fields supplied. |
| PeerOutcomes.AddOutcome | dashboard/internal/clients/service.go:191-246 | A successful Add returns the row asked for (enabled, stamped, at the requested address or else at the lowest free host, or on 255.255.255.255/32 at the lowest unreserved address of all), the table gained exactly it, and it is live. A failed one changed nothing, or inserted that row and left the store alone: not applied, applied with an error, or live and only the listing for the store missing, according to the error. |
| PeerOutcomes.AddRejectsHeld | dashboard/internal/clients/service.go:199-213 | "In use" is reported if and only if the input is well-formed and the table holds the name or the key. |
| Admission.AddSucceedsIff | dashboard/internal/clients/service.go:191-246 | Add succeeds if and only if name and key are well-formed and not held, a host is left (or the requested one is in the subnet, not the server and held by no row), and no list, write, apply or listing for the store fails; a Save may. |
| Admission.AddRefusals | dashboard/internal/clients/service.go:191-246 | Which refusal an Add gets for its input, each if and only if it is the first that applies. |
| PeerOutcomes.UpdateOutcome | dashboard/internal/clients/service.go:263-340 | A successful Update patched the one row of that name: supplied fields new, the others, id and created_at kept, no other row touched. A failed one changed nothing, or patched that row and left the store alone, in one of the same three ways. |
| Admission.UpdateSucceedsIff | dashboard/internal/clients/service.go:263-340 | Update succeeds if and only if a new name is well-formed and held by no other row, a new key likewise, a supplied address is a host of the subnet that is not the server and held by no other row, and no call on the way fails. |
| Admission.PlanUpdateIff | dashboard/internal/clients/service.go:281-323 | Which refusal an Update gets, each if and only if it is the first that applies; the row's own address is never in its way. |
| Admission.UpdateNotFoundIff | dashboard/internal/clients/service.go:267-280 | "Not found" is reported if and only if no row has the name. |
| UpdateSaves.UpdateSavesIff | dashboard/internal/clients/service.go:327-338 | With a store that answers, a successful Update saves if and only if a name, key or address is supplied. |
| UpdateSaves.SavesOnChangeIff | dashboard/internal/clients/service.go:327-338 | "It saves exactly when the stored entry changed" holds if and only if it is not the case that stored fields are supplied, all at their present values. |
| UpdateSaves.RenameToSelfSaves | dashboard/internal/clients/service.go:327-338 | Renaming a client to its present name goes through and saves the set the store was to hold anyway. |
| PeerOutcomes.DeleteRemovesAtMostOne | dashboard/internal/db/db.go:774-780 | Delete removes the one row of that name, or nothing. |
| PeerOutcomes.DeleteOutcome | dashboard/internal/clients/service.go:404-418 | A successful Delete leaves exactly the other rows, and live; a failed one changed nothing, or deleted and left the store alone. It succeeds if and only if no write, apply or listing for the store fails. |
| PeerOutcomes.DeleteUndoesAdd | dashboard/internal/clients/service.go:191-418 | Deleting what was just added gives every row back as it was, on the live interface too. |
| PeerConvergence.NilMeansLiveConverged | dashboard/internal/clients/service.go:435-444 | From every state, an Add, Update, ReplaceAll, Delete or Reconcile that returns nil leaves the live interface equal to the rendering of the table. |
| PeerConvergence.SavedSetWasApplied | dashboard/internal/clients/service.go:435-505 | An operation's outside calls are an apply, then perhaps a probe, then perhaps a save of the very set just applied; nothing is saved after a failed apply. |
| PeerConvergence.SuccessfulSaveAgrees | dashboard/internal/clients/service.go:485-505 | An operation that ends in a successful Save leaves the store equal to the canonical form of the table. |
| PeerConvergence.EnableOrNoteKeepsAgreement | dashboard/internal/clients/service.go:311-340 | Enabling, disabling or annotating a client calls no store and keeps store and table in agreement. |
| PeerConvergence.CanonicalIsNormalForm | dashboard/internal/clientstore/clientstore.go:88-98 | Entries with distinct addresses have one canonical arrangement, however they come and although the sort is unstable. |
| PeerConvergence.CanonicalAscends | dashboard/internal/clientstore/clientstore.go:88-98 | The stored form holds the given entries, each as often as given, with address texts ascending byte by byte. |
| PeerConvergence.StepKeepsValid | dashboard/internal/clients/service.go:191-429 | Every operation, failing or not, keeps the UNIQUE constraints and the ids. |
| BootMachine.RunIsGuarded | dashboard/internal/clients/service.go:485-686 | The inductive invariant over every interleaving of boot, rechecks and operations: an armed latch means the latest Load was good, or that boot has not yet acted on its first one. |
| BootMachine.WriteThroughIsSafe | dashboard/internal/clients/service.go:485-686 | In every such interleaving each Save is preceded by a Load, and the latest Load before it succeeded or reported a missing object. |
| BootMachine.LatchStaysArmed | dashboard/internal/clients/service.go:519-556 | Once boot has ended, an armed latch is never dropped. |
| BootMachine.RunKeepsValid | dashboard/internal/clients/service.go:587-686 | Every interleaving keeps the UNIQUE constraints, an untransacted seed that fails half-way included. |
| BootMachine.CompleteIsARun | dashboard/internal/clients/service.go:587-686 | The uninterrupted boot is one of the machine's runs, of at most six steps. |
| BootOutcome.BootNeverLosesPeers | dashboard/internal/clients/service.go:587-686 | If the store is missing, empty, invalid or fails hard, a non-empty table is left exactly as it was, and so is the live interface, whatever the poller does meanwhile and whatever fails. |
| BootHeals.EmptyStoreIsHealed | dashboard/internal/clients/service.go:618-661 | If the store was missing or empty and boot returns nil, the store then holds the canonical table: the table's own rows if it had any, else the seed manifest, which fills both. |
| BootHeals.SeedAddsEntries | dashboard/internal/clients/service.go:150-163 | A seed loop that gets through adds exactly the manifest's entries, each once. |
| BootEmptyStore.EmptyStoreBootOutcome | dashboard/internal/clients/service.go:618-661 | For every boot on a missing or empty store, in every interleaving with the poller and whatever fails: its answer, table, interface and store object. A failed count, listing or save leaves table and interface alone, a seed stops after the entries before the first that fails, and only a finished seed is applied. |
| BootHardError.SeedTakes | dashboard/internal/clients/service.go:138-165 | Seeding an empty table takes the manifest's entries, enabled, without notes and stamped now, up to the first that repeats a name, key or address or whose statement fails. |
| BootHardError.HardErrorSeedsEmptyTable | dashboard/internal/clients/service.go:670-686 | A boot on an empty table after a hard load error, in every interleaving with the poller: an error is returned, the store object is untouched and nothing is saved, the table takes the manifest as far as that goes, and exactly a finished seed is applied. |
| BootHardError.HardErrorGoesLiveIff | dashboard/internal/clients/service.go:670-686 | There the manifest goes live if and only if the count, every seed statement, the listing and the apply answer and the manifest repeats no name, key or address; the table is then exactly the manifest and the interface exactly the table. |
| LocalBoot.LocalBootOutcome | dashboard/cmd/wireguard-dashboard/main.go:400-412 | In local mode a table with rows is never re-seeded, an empty one takes the manifest as far as that goes, and in either case the table is then applied. |
| LocalBoot.LocalBootKeepsRows | dashboard/internal/clients/service.go:133-148 | Once the table has rows, booting again changes none of them, whatever the manifest says. |
| BootOutcome.BootRestoresExactly | dashboard/internal/clients/service.go:600-611 | If the store holds a non-empty list and boot returns nil, the list was valid and the table is exactly it, every row enabled and without a note. |
| BootOutcome.ReplaceByItselfIsIdentity | dashboard/internal/db/db.go:872-885 | Replacing a restored table by the set it holds commits in every order and alters no row. |
| BootOutcome.RebootAltersNothing | dashboard/internal/clients/service.go:587-611 | A boot that loads what the table holds alters no row at any step. |
| BootAgain.BootIsIdempotentIff | dashboard/internal/clients/service.go:587-686 | After any first boot that returned nil (restored, healed or seeded), a second nil boot that reads what is stored for the table alters no row if and only if the first filled the table or the table held no disabled and no annotated row. |
| BootAgain.BootIsIdempotent | dashboard/internal/clients/service.go:587-686 | Wherever the first boot leaves only enabled rows without notes, no step of the second alters a row, whatever fails. |
| BootAgain.SameListTwice | dashboard/internal/clients/service.go:587-612 | After a boot that restored a list, a second boot that reads the same list alters no row. |
| BootAgain.RebootAltersNothingIff | dashboard/internal/clients/service.go:600-611 | A nil boot that restores a list alters no row if and only if the table was that list already, all enabled and without notes. |
| BootAgain.RebootIsStableIff | dashboard/internal/clients/service.go:600-611 | Reading back what is stored for a table alters no row if and only if no row is disabled or annotated. |
| BootAgain.PlainAfterBootIff | dashboard/internal/clients/service.go:587-686 | After a nil boot every row is enabled and without a note if and only if boot filled the table or that was so before. |
| BootAgain.DisabledClientComesBack | dashboard/internal/clients/service.go:381-388 | One disabled client and a store never written: the first boot saves it and changes no row, the second enables it. |
| BootConverges.BootConvergesIff | dashboard/internal/clients/service.go:587-661 | In every interleaving with the poller, a nil boot leaves the live interface equal to the rendering of the table if and only if the store offered a list, the table was empty, or the interface was already right. |
| BootConverges.HealedBootIsNotLive | dashboard/internal/clients/service.go:625-641 | One enabled client, an empty interface and a store never written: boot returns nil and the interface stays empty. |
| BootLatch.RestoreSucceedsIff | dashboard/internal/clients/service.go:371-402 | ReplaceAll returns nil if and only if the list is valid, the update order respects its dependencies, and no database call, apply or listing for the store fails. |
| BootLatch.SeedSucceedsIff | dashboard/internal/clients/service.go:150-163 | The seed loop gets through if and only if no statement fails, the manifest repeats no name, key or address, and none is held already. |
| BootLatch.BootLatchesIff | dashboard/internal/clients/service.go:587-686 | An uninterrupted boot returns nil, with the latch up, if and only if the inputs of the branch it takes allow it; otherwise it ends with the latch down. |
| BootLatch.FailedHealDropsLatch | dashboard/internal/clients/service.go:618-641 | One client, a store never written and a failing save: no hard load error, and the latch is down. |
| BootLatch.DownOnlyOnHardErrorIff | dashboard/internal/clients/service.go:111-116 | "Down only after a hard load error" holds of a boot if and only if it had one or went through. |
| BootLatch.UnrestoredListIsOverwritten | dashboard/internal/clients/service.go:600-611 | Any non-empty list that boot could not restore: the latch drops, an answered recheck arms it, and the next successful canonical write leaves the store equal to the canonical table. The table holds the list by then if and only if the restore failed after its commit or held it before, and has its old rows if and only if there was no commit or it held the list before. |
| BootLatch.RestoreLandsIff | dashboard/internal/clients/service.go:371-402 | ReplaceAll, failing or not, leaves the table equal to the list if and only if the list is valid, the update order respects its dependencies and the transaction meets no fault, or the table was that list already; otherwise no row changes. |
| BootLatch.SwappedListIsOverwritten | dashboard/internal/clients/service.go:600-611 | A valid list in which two surviving peers trade addresses is lost that way in every map order, the table untouched by boot. |
| WriteThrough.CanonicalWriteAgrees | dashboard/internal/clients/service.go:485-505 | Whatever state earlier failures left, one successful canonical mutation with a store that answers makes the store equal to the canonical table. |
| WriteThrough.LatchRecovers | dashboard/internal/clients/service.go:519-556 | A hard error does not latch for ever: in every reachable state after boot one answered recheck arms the latch without touching table or store, and the next successful canonical write restores agreement. |
| WriteThrough.RefusedListIsOverwritten | dashboard/internal/clients/service.go:600-611 | Boot refuses an invalid list without touching the table, an answered recheck arms the latch all the same, and the next successful canonical write overwrites the list. |
| WriteThrough.TableRendersCanonically | dashboard/internal/wgsync/wgsync.go:87-112 | A table of valid addresses renders to the same bytes from any arrangement of its rows. |
| ServiceClass.Service.Add | dashboard/internal/clients/service.go:191-246 | The method takes the specified step on table, live text, store and latch. |
| ServiceClass.Service.CheckNew | dashboard/internal/clients/service.go:204-226 | The uniqueness scan and address decision accept or reject as specified. |
| ServiceClass.Service.CheckFields | dashboard/internal/clients/service.go:281-320 | The field checks run in order on a copy of the row and decide as specified. |
| ServiceClass.Service.Update | dashboard/internal/clients/service.go:263-340 | The scan finds the one row of that name, and the method takes the specified step. |
| ServiceClass.Service.ReplaceAll | dashboard/internal/clients/service.go:371-402 | The method takes the specified step for any map orders. |
| ServiceClass.Service.Delete | dashboard/internal/clients/service.go:407-418 | The method takes the specified step. |
| ServiceClass.Service.Reconcile | dashboard/internal/clients/service.go:425-429 | The method re-applies the table and changes nothing else. |
| ServiceClass.Service.Seed | dashboard/internal/clients/service.go:138-165 | Seeds an empty table only; rows inserted before a failure stay. |
| ServiceClass.Service.Apply | dashboard/internal/clients/service.go:435-444 | The applier gets the full listing; success sets the live text to its rendering. |
| ServiceClass.Service.SaveStore | dashboard/internal/clients/service.go:485-505 | A dropped latch is probed first; store errors are never returned. |
| ServiceClass.Service.AttemptStoreHeal | dashboard/internal/clients/service.go:519-527 | Any answer but a hard error arms the latch. |
| ServiceClass.Service.RecheckStore | dashboard/internal/clients/service.go:546-556 | Probes only a dropped latch of a real store. |
| ServiceClass.Service.ReconcileFromStore | dashboard/internal/clients/service.go:587-612 | Run without interruption, boot ends where the boot machine's steps end. |
| ServiceClass.Service.ReconcileFromEmptyStore | dashboard/internal/clients/service.go:618-661 | A table with rows heals the store; an empty one is seeded after the store is; the latch follows the outcome. |
| ServiceClass.Service.ReconcileFromHardStoreError | dashboard/internal/clients/service.go:670-686 | The latch drops, an empty table is seeded, the store is never written. |
| Rendering.AddrLessIsStrictWeakOrder | dashboard/internal/wgconfig/wgconfig.go:278-300 | The address comparison is irreflexive, asymmetric and transitive, and its ties are exactly equal sort keys, transitively. |
| Rendering.RendersEnabledAscending | dashboard/internal/wgconfig/wgconfig.go:265-276 | What is rendered is every enabled peer as often as given, no disabled one, in ascending order. |
| Rendering.RenderingIsCanonical | dashboard/internal/wgconfig/wgconfig.go:250-276 | Peers with distinct sort keys render to the same bytes from any input order. |
| LiveConfig.DisabledRowsAreNotLive | dashboard/internal/wgsync/wgsync.go:80-100 | A table renders as if its disabled rows were not there; to the empty text if no row is enabled. |
| LiveConfig.RenderSpellsEnabledRows | dashboard/internal/wgconfig/wgconfig.go:198-276 | The live text is one block per enabled row, each once, with that row's own name, key and address spelled out, in ascending order of the addresses' numbers. |
| LiveText.LiveTextReadsBack | dashboard/internal/wgconfig/wgconfig.go:198-276 | For tables whose rows pass the validators, reading the live text line by line gives back exactly the names, keys and addresses of the enabled rows: no field can add a line of its own. |
| LiveText.InterfaceReadsBack | dashboard/internal/wgconfig/wgconfig.go:221-245 | The interface block reads back as its four settings and then each hook, in order, if no setting holds a newline. |
| Rendering.BuildServerPeers | dashboard/internal/wgconfig/wgconfig.go:250-259 | The builder loop writes the stanzas in order with one blank line between them. |
| Rendering.BuildServerConf | dashboard/internal/wgconfig/wgconfig.go:221-239 | The full configuration is the interface block, followed by a newline and exactly the peers-only text when any peer is enabled. |
| PromText.ThreePassesAreOne | dashboard/internal/server/handlers_metrics.go:336-341 | The three replace passes equal the byte-by-byte escape: no introduced escape is escaped again. |
| PromText.HelpReadsBack | dashboard/internal/server/handlers_metrics.go:345-351 | Escaped HELP text is one line and reads back byte for byte. |
| PromGroups.ExpositionIsGrouped | dashboard/internal/server/handlers_metrics.go:238-323 | As the text format asks, the lines of each family are one group, HELP and TYPE first, and no family has a second group. |
| PromGroups.CountersAreByteTotals | dashboard/internal/server/handlers_metrics.go:278-296 | The families declared as counters are exactly those named for a total of bytes. |
| PromText.GetMetrics | dashboard/internal/server/handlers_metrics.go:238-323 | The builder writes the sections in order, each family under its header, optional ones only when known. |
| PromParse.FindLabelClose | mcp/internal/tools/host_metrics.go:286-309 | The index-and-flags loop finds the first closing brace outside quotes and escapes. |
| PromParse.ParsePromLabels | mcp/internal/tools/host_metrics.go:315-371 | The index loop reads the label block as specified, or reports it malformed. |
| PromParse.ParsePromLine | mcp/internal/tools/host_metrics.go:248-278 | A line yields its name, labels and first value field, or is rejected. |
| PromReport.ParseHostMetrics | mcp/internal/tools/host_metrics.go:94-189 | Any text at all is parsed line by line into rows sorted by label; unknown and malformed lines are skipped. |
| PromReport.ReportAscends | mcp/internal/tools/host_metrics.go:174-187 | Any text at all is reported with peers and disks in strictly ascending byte order of their labels, so no label twice. |
| PromRoundTrip.FamilyIsFound | mcp/internal/tools/host_metrics.go:107-170 | The parser's own list of family names has every name the printer uses, for that family. |
| PromLines.CloseIsFound | mcp/internal/tools/host_metrics.go:286-309 | For a printed label block with any value bytes, the brace found is the true closing one. |
| PromLines.ScanReadsValue | mcp/internal/tools/host_metrics.go:345-366 | Unescaping a printed value gives its bytes back and stops at its closing quote. |
| PromLines.LabelsRead | mcp/internal/tools/host_metrics.go:315-371 | Every printed label is read back, whatever bytes its value holds. |
| PromTolerance.PlainLineIff | mcp/internal/tools/host_metrics.go:248-256 | A line without a brace is a sample if and only if it is one name and one value with white space around and between them; any other is rejected. |
| PromTolerance.RestOfLineIgnored | mcp/internal/tools/host_metrics.go:259-277 | Whatever follows the value of a labelled sample, such as a time stamp, changes nothing about the sample. |
| PromTolerance.FirstBraceCloses | mcp/internal/tools/host_metrics.go:286-309 | Outside quotes the first brace closes the label block, and a backslash there escapes nothing. |
| PromTolerance.VerbatimValueReads | mcp/internal/tools/host_metrics.go:335-366 | In a quoted value a backslash before any other byte than a quote, a backslash or an n stays, with that byte. |
| PromRoundTrip.ParsesToMeaning | mcp/internal/tools/host_metrics.go:94-189 | Parsing a printed exposition applies exactly the printed samples in order; headers and help texts add nothing. |
| PromTheorem.RoundTrip | dashboard/internal/server/handlers_metrics.go:238-323 | Parsing the printed body gives back each optional gauge exactly when known, the build labels byte for byte, and the peers and disks in sorted order if and only if their labels are distinct and non-empty; an age is absent exactly for a peer that never handshaked. |
| PromTheorem.PeersAreReported | dashboard/internal/server/handlers_metrics.go:260-296 | Of peers with distinct names a scrape reports each once, in order of the names: its counters, and the seconds since its last handshake written out (now minus then, 0 if that lies ahead, absent if there was none). |
| AlertMachine.StateMachine.Step | dashboard/internal/alerts/alerts.go:584-606 | The in-place transition follows the specification, boundary of the cooldown included. |
| AlertMachine.StateMachine.Track | dashboard/internal/alerts/alerts.go:475-487 | The fire time moves on the edges only. |
| AlertMachine.LogIsEpisodes | dashboard/internal/alerts/alerts.go:584-606 | Whatever is observed, a key's log is a prefix of episodes "Fires, then one Recovery", with the Fires of an episode at least the cooldown apart. |
| AlertMachine.StateIsFoldOfLog | dashboard/internal/alerts/alerts.go:468-499 | The machine's state is a function of its own log, and each tick extends the log by a Fire on entry or at the cooldown, or a Recovery on clearing. |
| AlertMachine.NoRecoveryWhileFiring | dashboard/internal/alerts/alerts.go:584-606 | A condition that stays true once true never recovers. |
| AlertMachine.RecoversIff | dashboard/internal/alerts/alerts.go:584-606 | An observation logs a Recovery if and only if it ends a firing stretch. |
| AlertEval.KeyTextInjective | dashboard/internal/alerts/alerts.go:342-360 | No peer name makes its key collide with another key. |
| AlertEval.KeyLogSort | dashboard/internal/alerts/alerts.go:362 | Sorting a tick's events by key reorders no key's own events. |
| AlertEval.RunProjectsToKey | dashboard/internal/alerts/alerts.go:335-398 | Over any run with distinct peer names per tick, a key's log and machine are those of its own observations alone. |
| AlertRuns.EveryKeyKeepsEpisodes | dashboard/internal/alerts/alerts.go:335-364 | In every run, every key's event log keeps to the episode grammar. |
| AlertRuns.StateIsFoldOfEvents | dashboard/internal/alerts/alerts.go:468-499 | A key is firing exactly when its last event is a Fire, since the first Fire of that episode. |
| AlertRuns.EventsAreReplay | dashboard/internal/alerts/alerts.go:584-606 | In every run a key's events are a Fire on entry and at each firing tick at or past the cooldown, a Recovery on clearing, and nothing else. |
| AlertRuns.NoInterference | dashboard/internal/alerts/alerts.go:335-398 | Replacing all other peers and all other conditions' inputs, tick by tick, changes nothing about a key's events or state. |
| AlertRuns.WindowIsHighSuffix | dashboard/internal/alerts/alerts.go:444-457 | The sustain timer is the start of the maximal suffix of high ticks, and off exactly when there is none. |
| AlertRuns.CpuFiresIffSustained | dashboard/internal/alerts/alerts.go:444-457 | In every run the evaluator's high-CPU key is firing exactly when that suffix began at least the sustain window ago. |
| AlertRuns.DiskFiresIff | dashboard/internal/alerts/alerts.go:422-435 | In every run the high-disk key is firing exactly when some filesystem of the last tick is at or over the threshold. |
| AlertRuns.ServiceFiresIff | dashboard/internal/alerts/alerts.go:335-347 | In every run the service-down key is firing exactly when the last tick found the service inactive. |
| AlertRuns.BaseFollowsReadings | dashboard/internal/alerts/alerts.go:378-389 | A peer's baseline depends on its own readings only, absent ticks and other peers notwithstanding. |
| AlertRuns.BaseIsLastReset | dashboard/internal/alerts/alerts.go:378-389 | The baseline is the reading at the last point where a counter fell below it, or the first reading. |
| AlertRuns.CapFiresIff | dashboard/internal/alerts/alerts.go:378-398 | In every run a peer's transfer-cap key is firing exactly when, at its last reading, a counter had grown by the cap since the last reset. |
| AlertRuns.MonotoneNeverRecovers | dashboard/internal/alerts/alerts.go:370-398 | If a peer's counters never decrease, its transfer-cap key never recovers. |
| AlertRuns.RecoveryNeedsFall | dashboard/internal/alerts/alerts.go:370-398 | Between a firing observation and a later one that is not, some counter fell. |
| AlertRuns.FallAboveBaselineRecovers | dashboard/internal/alerts/alerts.go:370-377 | On the readings 0, 100, 99 under a cap of 100 the key fires and recovers while the baseline stays 0. |
| AlertCap.RecoversOnReadings | dashboard/internal/alerts/alerts.go:378-398 | In every run a tick recovers a peer's key if and only if the peer is sampled after a reading over the cap and the new reading is below the baseline, or at or above it with both totals under the cap. |
| AlertCap.OnlyResetsRecoverIff | dashboard/internal/alerts/alerts.go:370-377 | "Every recovery is a reset below the baseline" holds of a run if and only if no reading after one over the cap lies at or above the baseline with both totals under the cap. |
| AlertClass.Evaluator.Observe | dashboard/internal/alerts/alerts.go:468-499 | The funnel steps one key's machine, created on first use, and leaves every other machine alone. |
| AlertClass.Evaluator.DiskObservation | dashboard/internal/alerts/alerts.go:422-435 | Fires exactly when some filesystem is at or over the threshold, and picks the fullest. |
| AlertClass.Evaluator.CpuObservation | dashboard/internal/alerts/alerts.go:444-457 | Moves the sustain window in place as specified. |
| AlertClass.Evaluator.TransferCapObservation | dashboard/internal/alerts/alerts.go:378-398 | Captures or resets the baseline and judges the totals against it. |
| AlertClass.Evaluator.Evaluate | dashboard/internal/alerts/alerts.go:335-364 | A tick on the heap reaches the specified state and events, in exactly the specified order when peer names are distinct, despite the unstable sort. |
| AlertClass.Evaluator.Active | dashboard/internal/alerts/alerts.go:508-523 | The view lists every firing key once with its original fire time, in ascending key order, however the map is ranged over. |
| AlertClass.TickOrderIsForced | dashboard/internal/alerts/alerts.go:362 | With distinct peer names the sort has no freedom: a tick has one event per key at most. |
| AlertClass.TickAscends | dashboard/internal/alerts/alerts.go:362 | A tick's events come in ascending byte order of their key text. |
| AlertClass.ActiveIsOpenEpisodes | dashboard/internal/alerts/alerts.go:508-523 | After any run the view is exactly the keys whose log ends in a Fire, each with its episode's start. |
| AlertLoop.EvaluateAlerts | dashboard/internal/poller/poller.go:792-814 | The view and ring follow the evaluator whatever the queue does. |
| StatusRing.StatusHolder.Update | dashboard/internal/alerts/status.go:78-101 | The view is replaced, the ring appended to and trimmed to the newest fifty. |
| StatusRing.StatusHolder.Snapshot | dashboard/internal/alerts/status.go:117-134 | A fresh copy with the ring newest first. |
| StatusRing.RingIsLastOfLog | dashboard/internal/alerts/status.go:78-101 | After any run the ring is exactly the last fifty events of the full log, dropped deliveries included. |
| StatusRing.SnapshotIsNewestFirst | dashboard/internal/alerts/status.go:117-134 | Entry i of a snapshot is the i-th newest event of the whole run. |
| Dispatch.Channel.TrySend | dashboard/internal/poller/poller.go:805-813 | The send never blocks: it queues when there is room and drops otherwise. |
| Dispatch.Channel.TryReceive | dashboard/internal/poller/poller.go:826-830 | The worker takes the oldest event, or waits on an empty queue. |
| Dispatch.DeliveredInOrder | dashboard/internal/poller/poller.go:805-841 | In every interleaving of loop and worker, delivered then queued events are an in-order subsequence of the log, and at most 64 are queued. |
| Dispatch.QueuedIsDelivered | dashboard/internal/poller/poller.go:805-841 | What is queued stays queued, in its place, until it is delivered: only an event on offer is ever dropped. |
| Dispatch.EveryEventAccountedFor | dashboard/internal/poller/poller.go:805-841 | Every event is delivered, queued or dropped, exactly once. |
| Dispatch.NothingDroppedIff | dashboard/internal/poller/poller.go:77-86 | No event is lost if and only if an unbounded queue would never have held more than 64. |
| Dispatch.NothingDroppedIsFifo | dashboard/internal/poller/poller.go:805-841 | Then delivered followed by queued events are the whole log. |
| LoopRuns.RingAndQueueFollowLog | dashboard/internal/poller/poller.go:792-841 | In every interleaving of ticks, single sends and receives, the ring is the last fifty events of the evaluator's log, delivered then queued events are that log in order with some left out, at most 64 are queued, and every event is delivered, queued, dropped or still to be sent. |
| Handshakes.Poller.Collect | dashboard/internal/poller/poller.go:671-711 | The pass over the peers moves the cache and collects rows as specified; the cache advances even when the insert fails. |
| Handshakes.Poller.InsertEvents | dashboard/internal/db/db.go:495-525 | The batch replaces or inserts each row, or, on a failure at any statement or at the commit, changes nothing. |
| HandshakeRuns.RunMovesLane | dashboard/internal/poller/poller.go:671-711 | Each peer's cache entry and rows depend on that peer's own reports only. |
| HandshakeRuns.TableHoldsRecords | dashboard/internal/poller/poller.go:671-711 | Over any run with failed inserts and restarts, a pair is stored exactly when a stored tick reported a strict running maximum of the current process lifetime, and its name is the one of the latest such tick. |
| HandshakeRestarts.StoresRunningMaxima | dashboard/internal/poller/poller.go:671-711 | Without failures and restarts the stored pairs are exactly each peer's strict running maxima. |
| HandshakeRestarts.RestartLosesNothing | dashboard/internal/poller/poller.go:671-711 | If a peer's times never fall back and inserts succeed, a restart at any tick leaves its stored (time, key) pairs unchanged. |
| HandshakeRestarts.RestartKeepsSteadyRows | dashboard/internal/poller/poller.go:514-521 | If, besides, no time is reported under two names, a restart leaves its rows unchanged, names included. |
| HandshakeRestarts.RestartKeepsRowsIff | dashboard/internal/poller/poller.go:671-711 | Whatever is reported and whatever inserts fail, a restart leaves a peer's rows unchanged, names included, if and only if there is no time whose last record after the restart falls in the lifetime that begins there, that the lifetime before it had reached, and that is not already stored under the name resolved at that record. |
| HandshakeRestarts.NameLostAcrossRestart | dashboard/internal/poller/poller.go:514-521 | One time reported before and after a restart, the manifest unreadable at the second tick: the stored name becomes the key; without the restart it stays. |
| HandshakeRestarts.RestartStoresBoth | dashboard/internal/poller/poller.go:671-711 | Whatever is reported and whatever inserts fail, a run with a restart stores a pair if and only if the part before it or the part after it does so by itself. |
| HandshakeRestarts.NoRestartStores | dashboard/internal/poller/poller.go:671-711 | Without the restart, the later part's pairs of the same process lifetime count only above the time cached at that point. |
| HandshakeRestarts.RestartOnlyAdds | dashboard/internal/poller/poller.go:671-711 | A restart never loses a pair. |
| HandshakeRestarts.RestartInvisibleIff | dashboard/internal/poller/poller.go:671-711 | A restart leaves a peer's pairs unchanged if and only if no time is a record of the reports after it, and there only of the lifetime that begins with it, that was reached in the lifetime ending with it but is no stored record of the reports before it. |
| HandshakeRestarts.FallBackAcrossRestart | dashboard/internal/poller/poller.go:671-711 | On the readings 10, restart, 5 the time 5 is stored; on 10, 5 without a restart it is not. |
| History.Derive | dashboard/internal/history/history.go:75-110 | The loop yields the specified sessions, their count, connected time, online flag and last handshake, for any list of times. |
| History.SessionsAreTheSplit | dashboard/internal/history/history.go:75-100 | The sessions are those of a cut whose inner gaps are at most the threshold and whose gaps between runs are greater. |
| History.SplitIsUnique | dashboard/internal/history/history.go:75-100 | There is only one such cut. |
| History.EveryHandshakeInOneRun | dashboard/internal/history/history.go:75-100 | Every handshake lies in exactly one session. |
| History.ConnectedIsSmallGaps | dashboard/internal/history/history.go:100-103 | Connected time is the sum of the consecutive gaps that do not exceed the threshold. |
| History.SmallGapsWithinSpan | dashboard/internal/history/history.go:100-103 | For ascending times it lies between zero and last minus first. |
| Tokens.Store.Issue | mcp/internal/tools/tokens.go:74-89 | A fresh token replaces any earlier one for the name; a failing generator changes nothing. |
| Tokens.Store.Verify | mcp/internal/tools/tokens.go:108-125 | A match consumes the entry, an expired entry is swept, anything else changes nothing. |
| Tokens.TableExplained | mcp/internal/tools/tokens.go:74-125 | An entry is the latest unredeemed Issue; a missing one was never issued, redeemed or seen expired. |
| Tokens.VerifyIff | mcp/internal/tools/tokens.go:108-125 | Over any history with a clock that never runs backwards, Verify accepts if and only if the token is that of the latest Issue for the name, its time to live has not passed, and no Verify redeemed it since. |
| Tokens.TokenRedeemsOnce | mcp/internal/tools/tokens.go:36-55 | With fresh tokens each is redeemed at most once, only for its own name, and within its time to live. |

## Left out

- HTTP handlers, templates, JSON encoding, the browser code, webhook delivery, the `aws` CLI, `sudo wg`, systemd and
  `/proc` readers: foreign calls and plumbing. Load, Save, Apply and insert outcomes are parameters.
- The SQLite engine: tables are maps with UNIQUE checks per statement; a transaction commits whole or not at all.
  Timestamps are integers, so the truncation of stored times to whole seconds is not modelled.
- The staging of the live configuration (dashboard/internal/wgsync): a successful apply sets the live text to the rendering
  of the rows it was given.
- IPv6 and IPv4-mapped address text, and white space outside ASCII in the metrics parser.
- Floating point: thresholds and percentages are reals in the alert model; the metrics text leaves printing, parsing
  and truncation to a codec, so the float64 detour of counters stays visible as `truncate(toFloat(n))` in the
  round trip.
- Retention: the hourly deletion of old rows (`PruneBefore`, dashboard/internal/db/db.go:667) is not a step of the
  handshake runs, so the handshake rows speak of the table before anything is pruned.
- Detail strings, `FormatMessage`, humanised durations, log lines and error texts; "name in use" and "key in use" are
  one error kind. HELP texts are a parameter.
- Saturation of durations and the zero time as a sentinel: absent times are `None`, clocks are unbounded integers.
- Row validity and exclusion of the server address after `Seed`, and exclusion of the server address after
  `ReplaceAll`: `Seed` does not validate and `validateSet` does not reject the server, so neither is claimed.
- ServiceClass.Service.ReconcileFromStore: proved for a boot that nothing interrupts, because a method cannot be
  interleaved; the interleavings are those of `BootMachine`.
- AlertLoop.EvaluateAlerts: one tick without the worker, with inputs already read and peer names distinct within the tick;
  receives between two sends of a tick are covered by `LoopRuns`.
- StatusRing, Dispatch: `Status` and queue entries are the evaluator's events without their detail text.
