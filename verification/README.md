# EdaGym: a verified model of its fail-closed cores

EdaGym runs untrusted design-automation work and only believes what it can check. This project models the parts of it
where that claim is hardest to see in the code, and proves for all inputs, all runs or all reachable states what those
parts promise.

* **The guest VM agent.** `KeyOrder`, `CanonicalJson`, `CanonicalStrings`, `CanonicalEscapes`,
  `CanonicalRoundTrip` and `CanonicalPrinter` cover the agent's canonical JSON: the decoder it relies on, the printer it
  compares with, and the acceptance test that a message must equal its own canonical form. `LaunchCodec` adds the domain
  framing of digests and what an accepted launch binds. `AgentProtocol` is the control loop, the executor goroutine, the
  child process and the wall timer as one transition system whose steps are the locked regions. `OutputCapture` is the
  bounded writer and the byte budget of a result; `Paths` and `GuestTransfer` are the file transfers of a launch.
* **Commercial licences.** `LeasePool` holds the leases, the capacity-limited table and their classes, `LicenseBroker`
  the single-use authorization and `authorize`, and `LicenseRuns` every interleaving of them under a clock that does not
  go back.
* **Tree copying and publication.** `AssetCopy` is the bounded recursive copier. `MemberPaths`, `CatalogRoles`,
  `CatalogTree`, `TreeVerification` and `CatalogPublication` are the member-path check, the role-coverage check, the
  writes, the scan, and the stage-rename-verify publication of a private catalog.
* **Evidence and the release decision.** `ReleaseEvidence`, `BackendCoverage`, `BackendProjection`, `ReleaseTrial`,
  `ReleaseDecision` and `ReleaseCommands` are the roll-ups, the search for independent implementations, the projectors,
  and the separately written validators that their output must meet. `TrialMeaning` ties every verdict of a trial to the
  events and tools of the run it was projected from.
* **Normal forms and visibility.** `DecimalForm` is the canonical decimal string; `Visibility` is the audience table
  and the two checks that rest on it.

`Wrappers`, `Octets`, `Counting` and `TupleOrder` hold definitions that several of these share.

Code that changes state step by step is imperative here too: classes for the invocation record, the bounded buffer, the
leases, the provider, the authorization, the copy budget and the parent directory, and methods with loops elsewhere, each
proved against a specification function about which the theorems are stated. SHA-256 is an opaque function; claims about
identities are claims about what is hashed.

## What turned out not to hold, and exactly when it does

* A string is printed so that the agent's own decoder reads it back if and only if no backslash in it is directly followed
  by `u2028` or `u2029`: the replacements made after encoding break the escaped backslash
  (`CanonicalStrings.LiteralReads`, `CanonicalStrings.UncleanIsRefused`). Deeper nesting than the decoder's limit of
  10000 is the only other way for a printable value to be refused (`CanonicalRoundTrip.RoundTrip`).
* Host and guest sort two keys alike unless at their first difference one character is supplementary and the other lies
  between U+E000 and U+FFFF (`KeyOrder.HostAndGuestOrder`).
* A stored result is delivered if and only if its encoded frame is within 64 MiB and the channel takes it; a launch may ask
  for an output limit at which a complete result never fits (`AgentProtocol.StoredResultDelivery`,
  `OutputCapture.CollectableButOversized`).
* Once executor, process and timer have come to rest, an accepted launch has a result if and only if its executable was
  still trusted when the executor looked at it; otherwise the agent answers "running" for ever
  (`AgentProtocol.NeverStuck`).
* A renewal can bring back a lease in one way only: its first check passed before the lease ran out and the new time was
  set after, while nobody had read the lease as expired (`LicenseRuns.RevivalIsRenewal`,
  `LicenseRuns.RevivedOnlyByRenewal`, with the run of `LicenseRuns.RevivalHappens`). A lease that is inactive with no
  renewal of it under way never becomes active again (`LicenseRuns.NeverRevived`).
* Releasing a foreign lease whose identifier collides with a held one, followed by one grant, leaves more leases active
  than the capacity allows if and only if the capacity was fully used by active leases
  (`LeasePool.ForeignReleaseExceedsCapacity`).
* A projected trial meets its own validator if and only if the identifiers it copies are unique, there is a candidate and
  the role admits the capability; settled tool identifiers may repeat (`ReleaseTrial.ProjectedIsValid`,
  `ReleaseTrial.RepeatedToolRefused`).
* A backend coverage record meets its own validator if and only if the contract names at most three vendors and three
  tools, as every contract of the policy does (`BackendProjection.ProjectedIsValid`).
* No report assembled from projected evidence can be READY (`ReleaseDecision.ReportNeverReady`).

## Model

| member | source | states |
|---|---|---|
| `KeyOrder.KeyLessIsScalarOrder` | guest/edagym-vm-agent/main.go:295-315 | Go's byte order on UTF-8 keys is the order of scalar values, for all keys |
| `KeyOrder.KeyLessIsStrictTotal` | guest/edagym-vm-agent/main.go:295-315 | the key order is irreflexive, transitive, asymmetric and total |
| `KeyOrder.HostAndGuestOrder` | src/edagym/canonical.py:75-78 | the UTF-16 order of section 3.2.3 of RFC 8785 and the guest's order agree on two different keys if and only if their first difference is not a supplementary character against one from U+E000 up |
| `KeyOrder.AgreeWithoutSupplementary` | src/edagym/canonical.py:75-78 | for keys without supplementary characters host and guest print the same member order |
| `KeyOrder.SupplementaryDisagrees` | guest/edagym-vm-agent/main.go:295-315 | a pair of keys that the two sides order differently |
| `KeyOrder.Utf8Decodes` | guest/edagym-vm-agent/main.go:295-315 | the bytes that keys are compared by are UTF-8: the lead byte tells their number, and the scalar's bits are read back from them in order |
| `KeyOrder.Utf16Decodes` | src/edagym/canonical.py:75-78 | the code units that the host compares by are UTF-16: the scalar itself or a surrogate pair that gives it back |
| `CanonicalStrings.EncodedLiteral` | guest/edagym-vm-agent/main.go:323-334 | encoding followed by the two replacements over the whole text yields the quoted body that a definition character by character gives, for every string; which escapes that holds is settled by the three rows that follow |
| `CanonicalEscapes.PrintedIsShortest` | guest/edagym-vm-agent/main.go:323-334 | no literal that reads back as a clean string is shorter than the printed one |
| `CanonicalEscapes.PrintedIsLowerCase` | guest/edagym-vm-agent/main.go:323-334 | every hex digit of a printed escape is in lower case |
| `CanonicalEscapes.PrintedLiteralIsUnique` | guest/edagym-vm-agent/main.go:323-334 | the printed literal of a clean string is the only shortest lower-case literal that reads back as it |
| `CanonicalStrings.LiteralReads` | guest/edagym-vm-agent/main.go:323-334 | a printed literal reads back as its string if no backslash is followed by u2028 or u2029, and is refused otherwise |
| `CanonicalStrings.UncleanIsRefused` | guest/edagym-vm-agent/main.go:323-334 | every other string is printed as a document the decoder refuses |
| `CanonicalStrings.UncleanLiteralRefused` | guest/edagym-vm-agent/main.go:323-334 | a concrete string that is printed and then refused |
| `CanonicalRoundTrip.FormatIntValue` | guest/edagym-vm-agent/main.go:274-283 | formatting the parsed integer returns the text, for every text the integer pattern admits |
| `CanonicalRoundTrip.PrintReads` | guest/edagym-vm-agent/main.go:241-340 | the print of any value, followed by any delimiter, reads as that value and leaves the rest, or is refused, according to whether its strings are clean and its nesting allowed |
| `CanonicalRoundTrip.RoundTrip` | guest/edagym-vm-agent/main.go:241-340 | a printable value's print is accepted, and parses to the value, if and only if the value is readable |
| `CanonicalRoundTrip.AcceptedMessages` | guest/edagym-vm-agent/main.go:336-340 | accepted texts are exactly the prints of readable printable values |
| `CanonicalRoundTrip.PrintInjective` | guest/edagym-vm-agent/main.go:258-321 | two readable values with the same print are equal |
| `CanonicalRoundTrip.LookupAssign` | guest/edagym-vm-agent/main.go:241-256 | building an object member by member is assignment on a finite map |
| `CanonicalRoundTrip.AscendingIsUnique` | guest/edagym-vm-agent/main.go:295-315 | a sorted member list is determined by the map it stands for |
| `CanonicalRoundTrip.ParsedWellFormed` | guest/edagym-vm-agent/main.go:241-256 | whatever the decoder returns has its members in key order, without duplicates, at every level |
| `CanonicalPrinter.AppendCanonical` | guest/edagym-vm-agent/main.go:258-321 | the buffer-appending recursion adds exactly the print, or reports an error exactly for unprintable values |
| `CanonicalPrinter.CanonicalText` | guest/edagym-vm-agent/main.go:241-256 | the whole canonicalization equals its specification |
| `LaunchCodec.FrameInjective` | src/edagym/canonical.py:81-87 | for domains without NUL the digest preimage determines domain and content |
| `LaunchCodec.FrameNeedsNulFreeDomains` | guest/edagym-vm-agent/main.go:222-227 | two different framings coincide once a domain may contain NUL |
| `LaunchCodec.AcceptedFields` | guest/edagym-vm-agent/main.go:336-340 | the fields read from an accepted object are its members, in order, with canonical slices |
| `LaunchCodec.PlanSliceIsCanonical` | guest/edagym-vm-agent/main.go:336-351 | in every accepted launch the raw plan slice is the canonical print of the plan value and is itself accepted, so both digests equal those of the re-encoded values |
| `LaunchCodec.LaunchIsDecoded` | guest/edagym-vm-agent/main.go:336-364 | every canonically printed launch with a plan and a claimed digest is decoded to the print of its plan and both digests if the claim is the framed digest of that plan, and refused otherwise |
| `AgentProtocol.Invocation.Publish` | guest/edagym-vm-agent/main.go:718-721 | the locked region publishes the command and reads the cancel flag as it stood |
| `AgentProtocol.Invocation.Control` | guest/edagym-vm-agent/main.go:921-929 | a control request marks cancellation only while there is no result, and reports the result it saw |
| `AgentProtocol.Invocation.Store` | guest/edagym-vm-agent/main.go:795-797 | the locked region stores the result |
| `AgentProtocol.StepKeepsInv` | guest/edagym-vm-agent/main.go:681-942 | every step of loop, executor, process and timer keeps the invariant |
| `AgentProtocol.RepliesOfEveryRun` | guest/edagym-vm-agent/main.go:841-942 | in every interleaving at most one acceptance is issued, before every other reply, no running reply follows a result, and every result reply repeats the stored result with the accepted identities |
| `AgentProtocol.DeliveriesOfEveryRun` | guest/edagym-vm-agent/main.go:814-826 | the same order and identities hold of the replies that reach the peer, whichever sends fail or exceed the frame limit |
| `AgentProtocol.StoredResultDelivery` | guest/edagym-vm-agent/main.go:814-826 | asking for a stored result delivers it if and only if its frame is within the limit and the channel takes it |
| `AgentProtocol.OversizedResultIsLost` | guest/edagym-vm-agent/main.go:814-820 | in every run a result beyond the frame limit is never delivered |
| `AgentProtocol.ResultIsStoredOnce` | guest/edagym-vm-agent/main.go:795-797 | along every run the request and a stored result never change and storing happens at most once |
| `AgentProtocol.CancelIsLinearizable` | guest/edagym-vm-agent/main.go:718-753 | a stored result is cancelled with code 143 if and only if some cancel was handled before the executor's one read of the flag |
| `AgentProtocol.LateCancelIsInert` | guest/edagym-vm-agent/main.go:921-929 | a cancel handled once the result is stored changes nothing except to answer with that result |
| `AgentProtocol.EarlyCancelPreventsStart` | guest/edagym-vm-agent/main.go:718-723 | a cancel handled before the command is published keeps the process from ever starting |
| `AgentProtocol.OutcomesMeanWhatTheySay` | guest/edagym-vm-agent/main.go:744-797 | at every moment of a run a result that reads completed comes from a clean exit with code zero, one that reads timed out from a fired timer, and codes stay within a byte |
| `AgentProtocol.ResultOfEveryRun` | guest/edagym-vm-agent/main.go:744-797 | in every run the stored result is completed with 0 if and only if no cancel was handled before the read, the timer was not taken, the process exited cleanly with code zero and its outputs were read; timed out with 137 if and only if the timer was taken and no cancel handled; cancelled with 143 if and only if one was; and otherwise failed with the code of the process if that is a byte and the outputs are not to blame, else with 1 |
| `AgentProtocol.StartOfEveryRun` | guest/edagym-vm-agent/main.go:718-742 | the process runs exactly when starting it succeeds and no cancel was handled before its command was published |
| `AgentProtocol.FramesAreAnswered` | guest/edagym-vm-agent/main.go:841-942 | the first valid launch is accepted with its identities, a control request with matching identities is answered by the result or as running, and every other frame changes nothing |
| `AgentProtocol.WorkIsBounded` | guest/edagym-vm-agent/main.go:681-797 | in every run, however busy the loop, executor, process and timer take at most eight steps together |
| `AgentProtocol.NeverStuck` | guest/edagym-vm-agent/main.go:681-797 | in every run the loop can go on, and once executor, process and timer have come to rest an accepted launch has a result, exactly unless its executable was not trusted |
| `OutputCapture.BoundedBuffer.Write` | guest/edagym-vm-agent/main.go:194-207 | one write keeps what fits, flags what does not, and claims everything |
| `OutputCapture.CaptureIsPrefix` | guest/edagym-vm-agent/main.go:194-207 | for every sequence of writes the buffer is the exact prefix of everything written and overflow is set if and only if the total exceeds the limit |
| `OutputCapture.ReadDeclared` | guest/edagym-vm-agent/main.go:533-597 | one declared output is an error, absent or read, each under its exact condition, and the budget never goes below zero |
| `OutputCapture.CollectOutputs` | guest/edagym-vm-agent/main.go:779-794 | collection succeeds if and only if every declaration is obtainable and the present ones fit together, and then reports them in order |
| `OutputCapture.CaptureResult` | guest/edagym-vm-agent/main.go:707-794 | streams and outputs of any result total at most the larger of the limit and 8192 bytes, and at most the limit once an output is reported |
| `OutputCapture.StreamShare` | guest/edagym-vm-agent/main.go:707-712 | each stream may use a quarter of the output limit, rounded down, and never less than 4096 bytes |
| `OutputCapture.FrameFits` | guest/edagym-vm-agent/main.go:814-820 | more than three quarters of the frame limit in captured bytes never fits a frame, and less by the envelope and eight thirds of a byte per blob always does |
| `OutputCapture.CollectableButOversized` | guest/edagym-vm-agent/main.go:608-609 | an output limit that a launch may ask for admits a complete result that no frame carries |
| `Paths.ValidRelativeIsNormal` | guest/edagym-vm-agent/main.go:422-425 | a path passes the relative-path test if and only if all its components are ordinary names |
| `Paths.JoinBelow` | guest/edagym-vm-agent/main.go:427-509 | joining a valid relative path to a target appends its components |
| `GuestTransfer.MaterializeTree` | guest/edagym-vm-agent/main.go:427-509 | without a refusal by the operating system a tree is written in full if and only if it is well formed, fits the budget and has no file in the way of another entry; the budget pays for every write, failed ones included, and never goes below zero |
| `GuestTransfer.BlockedIsClash` | guest/edagym-vm-agent/main.go:473-487 | an entry meets a file where it needs a directory, or the reverse, exactly when it clashes with an earlier entry |
| `GuestTransfer.FileAsDirectoryRefused` | guest/edagym-vm-agent/main.go:473-487 | the files a and a/b are refused in either order |
| `GuestTransfer.MaterializeLaunch` | guest/edagym-vm-agent/main.go:868-882 | for every valid launch the bytes written over workspace and assets total at most the output limit; on success every file lies at or below its target and no two share a path |
| `LeasePool.LicenseLease.State` | src/edagym/executors/licenses.py:71-75 | reading the state marks an active lease expired once its time is over and changes nothing else |
| `LeasePool.HostModuleLicenseProvider.FindStale` | src/edagym/drivers/licensing.py:178-183 | the identifiers collected are those of table entries read as inactive, each at its own reading of the clock |
| `LeasePool.HostModuleLicenseProvider.DiscardInactive` | src/edagym/drivers/licensing.py:178-185 | both loops together release and drop exactly the table entries that were inactive when read |
| `LeasePool.HostModuleLicenseProvider.Acquire` | src/edagym/drivers/licensing.py:124-157 | after the sweep a lease is issued if and only if capacity is left and the environment loads; otherwise only the sweep remains |
| `LeasePool.HostModuleLicenseProvider.Renew` | src/edagym/drivers/licensing.py:159-169 | the expiry moves exactly for a held lease that was active at the first reading, counted from the second; any other lease, a foreign one included, is only read |
| `LeasePool.HostModuleLicenseProvider.Release` | src/edagym/drivers/licensing.py:171-176 | an issued lease is dropped and released; a foreign one with the same identifier only drops the entry |
| `LeasePool.AccountedBoundsLive` | src/edagym/drivers/licensing.py:136-157 | when the table holds exactly the unreleased leases, at most its capacity are active at any time |
| `LeasePool.ForeignReleaseBreaksAccounts` | src/edagym/drivers/licensing.py:171-176 | popping an entry for a foreign lease keeps the accounts if and only if there was no such entry |
| `LeasePool.ForeignReleaseExceedsCapacity` | src/edagym/drivers/licensing.py:171-176 | a foreign release and one grant exceed the capacity if and only if it was fully used by active leases |
| `LeasePool.ForeignReleaseWitness` | src/edagym/drivers/licensing.py:171-176 | with a capacity of one, two leases are active |
| `LicenseBroker.CommercialQualificationAuthorization.Consume` | src/edagym/drivers/licensing.py:216-264 | refusals in order; success exactly when the target matches, every possible execution of both roles fits the authorized time and ends with probe and guard before the deadline, and the lease is active at the second reading |
| `LicenseBroker.CommercialQualificationAuthorization.Close` | src/edagym/drivers/licensing.py:266-273 | the first close hands the lease back, later ones do nothing |
| `LicenseBroker.Authorize` | src/edagym/drivers/licensing.py:320-437 | either one authorization, bound to an eligible definition, probe and fixture, for one second to one hour, and owning one new active checkout that outlasts its receipt, or no checkout beyond those held before; the accounts hold either way |
| `LicenseBroker.WorkloadIsLongest` | src/edagym/drivers/licensing.py:246-250 | over all durations within the timeout, one for each invocation in each of the two roles, none totals more than the computed workload and one totals just that |
| `LicenseRuns.StepKeepsInv` | src/edagym/drivers/licensing.py:124-273 | every step of acquire, renew, release, authorize, consume, close and time keeps the invariant |
| `LicenseRuns.CapacityOfEveryRun` | src/edagym/drivers/licensing.py:136-157 | in every interleaving at most the capacity is active at any time |
| `LicenseRuns.NeverRevived` | src/edagym/drivers/licensing.py:159-185 | along every run a lease that is not active, by release, by a reading or by the clock alone, stays inactive unless a renewal of it was already under way |
| `LicenseRuns.SeenInactiveStays` | src/edagym/executors/licenses.py:71-85 | along every run a lease once read as expired or released is never active again, whatever renews it |
| `LicenseRuns.RevivalIsRenewal` | src/edagym/drivers/licensing.py:163-169 | a step makes an inactive lease active if and only if it is the second half of a renewal of that lease, not yet read as expired |
| `LicenseRuns.RevivedOnlyByRenewal` | src/edagym/drivers/licensing.py:163-169 | in every run a lease that comes back had passed the first check of a renewal before it ran out, and the time was set after |
| `LicenseRuns.RevivalHappens` | src/edagym/drivers/licensing.py:163-169 | a run in which it does come back |
| `LicenseRuns.RenewActsOnFirstReading` | src/edagym/drivers/licensing.py:159-169 | a renewal takes effect if and only if the lease was held and active at its first clock reading |
| `LicenseRuns.AuthorizeOwnsOrLeavesNothing` | src/edagym/drivers/licensing.py:385-437 | in every run a refused or closed authorization holds no checkout, and an open unconsumed one holds an active one of its own until its deadline |
| `LicenseRuns.ConsumptionIsCovered` | src/edagym/drivers/licensing.py:246-264 | in every run a consumed lease expires no earlier than the end of any possible execution of both roles with version probe and guard, unless its time was cut, and stays active until then unless it was handed back |
| `LicenseRuns.ConsumeExactly` | src/edagym/drivers/licensing.py:216-264 | a consumption is claimed if and only if the authorization is open, unused and for that target and every possible execution fits time and deadline; it succeeds if and only if the lease is then active |
| `LicenseRuns.AuthorizeExactly` | src/edagym/drivers/licensing.py:320-404 | an authorization is requested exactly for one second to one hour that leaves twenty-one seconds of the lease, inspected only with an active lease, and issued only with time enough left |
| `LicenseRuns.ConsumedAtMostOnce` | src/edagym/drivers/licensing.py:224-264 | in every interleaving at most one consumption of an authorization succeeds |
| `LicenseRuns.NothingAfterClose` | src/edagym/drivers/licensing.py:266-273 | after a close the authorization never changes and is never consumed |
| `LicenseRuns.FreshAuthorizationIsUsable` | src/edagym/drivers/licensing.py:376-404 | at the moment of issue the longest authorized workload can still be consumed |
| `AssetCopy.Budget.Account` | src/edagym/drivers/qualification_assets.py:45-71 | the checks pass exactly within all four limits, and then the counters grow by one entry and its bytes |
| `AssetCopy.CopyFileBytes` | src/edagym/drivers/qualification_assets.py:371-384 | through any sizes of reads and writes the copy succeeds if and only if the file has its announced size, and then equals it |
| `AssetCopy.BoundedNames` | src/edagym/drivers/qualification_assets.py:310-325 | a directory is listed in full unless it has more names than the maximum |
| `AssetCopy.CopyDirectory` | src/edagym/drivers/qualification_assets.py:242-307 | a directory is copied if and only if everything below it fits, early check included, and then in full, with the counters grown by the true totals |
| `AssetCopy.CopySnapshot` | src/edagym/drivers/qualification_assets.py:191-239 | an asset is copied if and only if it is safe and its depth, longest path, entries and bytes are within limits; the counters equal its entry count and byte sum |
| `AssetCopy.CopyIsFaithful` | src/edagym/drivers/qualification_assets.py:242-368 | every path leads to the same file, bytes and executability in source and copy, and to nothing in one exactly when in the other |
| `AssetCopy.CopyIsPrivate` | src/edagym/drivers/qualification_assets.py:436-492 | every copy passes the later inspection for private modes and valid names |
| `AssetCopy.LimitsAreOnPaths` | src/edagym/drivers/qualification_assets.py:57-63 | the depth and length limits hold of the measured tree if and only if every path that leads somewhere in it has at most so many names and, spelled with separators, so many bytes |
| `AssetCopy.LongestPaths` | src/edagym/drivers/qualification_assets.py:242-259 | some path in the tree is exactly as long, in bytes and in names, as the measures say |
| `MemberPaths.AcceptedPathIsNormal` | src/edagym/specs/common.py:171-177 | an accepted relative path is a lone dot or joins ordinary names, and is accepted unchanged |
| `MemberPaths.RefusedPaths` | src/edagym/specs/common.py:171-177 | refused are exactly the empty path, absolute paths and paths with an upward component, and a path of ordinary names is accepted unchanged |
| `MemberPaths.ValidateMemberPathSet` | src/edagym/authoring/provider.py:171-182 | the sorted pair check accepts a list of paths if and only if none repeats or lies above another |
| `CatalogTree.WriteSucceeds` | src/edagym/authoring/materialization.py:212-234 | a file can be written if and only if its path is free and no file stands in for a directory on the way |
| `CatalogTree.WriteEffect` | src/edagym/authoring/materialization.py:383-400 | a write adds that file and the directories above it and changes nothing else |
| `CatalogTree.WritesAreExact` | src/edagym/authoring/materialization.py:197-199 | writing members in any order meets no collision if and only if the paths are prefix-free and non-empty, and then the tree holds exactly them |
| `CatalogTree.Visit` | src/edagym/authoring/materialization.py:472-511 | the scan returns exactly the texts of all files and all directories below the root |
| `TreeVerification.ParentDirectories` | src/edagym/authoring/materialization.py:528-534 | exactly the proper ancestors of the expected files |
| `TreeVerification.VerifyTree` | src/edagym/authoring/materialization.py:128-159 | verification passes if and only if files, directories and member contents are exactly those listed |
| `CatalogPublication.MaterializedBelowRoot` | src/edagym/authoring/materialization.py:264-274 | a member lands below the root of its role at its own path |
| `CatalogPublication.WrittenByAudience` | src/edagym/authoring/materialization.py:264-274 | in a written catalog every file below public, participant or verifier is a member for that audience at its own path with its own content, every file below author is of one of the four author roles, and nothing else but the receipt is a file |
| `CatalogPublication.ValidWritesAreSeparate` | src/edagym/authoring/materialization.py:70-81 | for every receipt whose paths pass, the member writes and the receipt cannot collide |
| `CatalogRoles.ValidateRoles` | src/edagym/authoring/provider.py:828-865 | the role check accepts exactly the members that account for every qualified instance with non-empty, matching bundles |
| `CatalogRoles.CoveredNeedsTwo` | src/edagym/authoring/provider.py:787-865 | covered roles need a public or participant member and a verifier member, two in all |
| `CatalogRoles.MembersNameInstances` | src/edagym/authoring/provider.py:734-745 | evidence and flow packs name no instance, and every other member of a covered catalog names a qualified instance with its family |
| `CatalogPublication.PathClausesAlone` | src/edagym/authoring/materialization.py:70-81 | on the path clauses alone, a written tree would verify if and only if no relative path is a lone dot |
| `CatalogPublication.ValidReceiptHasNoDot` | src/edagym/authoring/materialization.py:83-89 | the role clauses rule a lone dot out of every valid receipt |
| `CatalogPublication.WrittenTreeVerifies` | src/edagym/authoring/materialization.py:128-159 | every tree written from a valid receipt verifies: exactly the expected files, the directories above them, and each member's bytes |
| `CatalogPublication.DotStandsAlone` | src/edagym/authoring/provider.py:171-182 | a lone dot passes the path checks only as the one member |
| `CatalogPublication.WriteAtomic` | src/edagym/authoring/materialization.py:172-209 | at every moment, under every failure, the destination is absent, the complete tree or another party's; nothing else changes, and a staging entry remains only if removing it failed or an interrupt skipped it |
| `CatalogPublication.MaterializeCatalog` | src/edagym/authoring/materialization.py:96-109 | publication succeeds if and only if the receipt is valid, the destination is free and nothing outside fails; then the tree holds exactly the members, each below the directory of its own audience |
| `ReleaseEvidence.CountsSummarize` | src/edagym/release_evidence.py:14-42 | counts partition their total and the derived status is the worst one present |
| `BackendCoverage.SelectIndependent` | src/edagym/release_backends.py:458-498 | the subset search computes the selection that the theorems are about |
| `BackendCoverage.IndependentIsPairwise` | src/edagym/release_backends.py:469-474 | the counting test means pairwise different families and deployments |
| `BackendCoverage.SelectIsBest` | src/edagym/release_backends.py:480-498 | the selection is independent, drawn from the candidates, and no independent selection scores higher |
| `BackendCoverage.SelectIgnoresOrder` | src/edagym/release_backends.py:458-498 | candidates in any order give the same selection |
| `BackendCoverage.SelectCoversIffPossible` | src/edagym/release_backends.py:458-498 | the selection meets the contract if and only if some independent set of candidates does |
| `BackendCoverage.SelectPriorities` | src/edagym/release_backends.py:480-498 | against any independent set the selection puts meeting the contract first, then required tools, then required vendors, then size |
| `BackendCoverage.EffectiveIsLargest` | src/edagym/drivers/semantic_claims.py:152-157 | the number of implementations needed is the largest of the minimum, the required vendors and the required tools |
| `BackendProjection.ProjectedIsValid` | src/edagym/release_backends.py:168-243 | for distinct tool identifiers the built record meets its own validator, its bound of three included, if and only if the contract names at most three vendors and three tools |
| `BackendProjection.PassedIffCoverable` | src/edagym/release_backends.py:387-456 | a capability is PASSED if and only if a covering independent set exists |
| `BackendProjection.CandidateMeans` | src/edagym/release_backends.py:387-456 | a candidate is exactly the tool, vendor, deployment and family of one backend that passed the capability |
| `BackendProjection.PassedHasRequired` | src/edagym/release_backends.py:387-456 | a PASSED capability has a backend that passed it of every required vendor and for every required tool |
| `BackendProjection.AddingKeepsPassed` | src/edagym/release_backends.py:387-456 | adding a backend never loses PASSED |
| `DecimalForm.CanonicalDecimalString` | src/edagym/canonical.py:48-72 | the stripping loop and the placing of the point compute the rendering |
| `DecimalForm.RenderReadsBack` | src/edagym/canonical.py:48-72 | reading the string back gives the exact value, for every finite decimal |
| `DecimalForm.RenderIsNormalForm` | src/edagym/canonical.py:48-72 | two decimals render equally if and only if they are numerically equal |
| `DecimalForm.RenderShape` | src/edagym/canonical.py:48-72 | no exponent, no redundant leading zero, no trailing fractional zero, and no sign on zero |
| `ReleaseTrial.Judge` | src/edagym/release_e2e.py:519-833 | the two sets hold each requirement by its verdict, stay disjoint on every path, and always hold the three tool requirements and the hidden verifier |
| `ReleaseTrial.ProjectTrial` | src/edagym/release_e2e.py:573-876 | the projector records the verdict of every requirement, whose meaning for the run the rows that follow give, and never reports PASSED |
| `TrialMeaning.ToolVerdicts` | src/edagym/release_e2e.py:658-673 | the open-source requirement is failed if and only if no settled tool and capability is conformant with an open-source vendor, and unavailable otherwise; likewise the commercial one |
| `TrialMeaning.SettlingOneMore` | src/edagym/release_e2e.py:624-673 | settling one more conformant tool makes its own vendor's requirement unavailable and, apart from isolation and recovery, changes no other |
| `TrialMeaning.StatefulVerdicts` | src/edagym/release_e2e.py:536-795 | a training trial passes candidate change, feedback, checkpoint and recovery each if and only if the journal holds the events it names in their order, and fails it otherwise; a fresh trial leaves all four unavailable |
| `TrialMeaning.IsolationVerdict` | src/edagym/release_e2e.py:624-657 | input isolation is unavailable if and only if the settled bindings match as many declared operations as there are of them, outside a brokered host, with every provider request bound; otherwise it is failed |
| `TrialMeaning.OtherVerdicts` | src/edagym/release_e2e.py:797-833 | the hidden verifier is unavailable if and only if a winning candidate was verified from disjoint sources, and commit and projections pass exactly with all retained artifacts, the trajectory and the report |
| `ReleaseTrial.FindRecovery` | src/edagym/release_e2e.py:703-795 | the first restart that the journal fully supports is the one recorded |
| `ReleaseTrial.ProjectedIsValid` | src/edagym/release_e2e.py:178-272 | a projected record meets its validator if and only if its identifiers are unique, a candidate exists and the role admits the capability |
| `ReleaseTrial.RepeatedToolRefused` | src/edagym/release_e2e.py:178-183 | a run that settles one tool twice is projected into a refused record |
| `ReleaseDecision.Aggregate` | src/edagym/release_e2e.py:941-1002 | the loop over requirements computes the roll-up of every requirement |
| `ReleaseDecision.SummaryIgnoresOrder` | src/edagym/release_e2e.py:319-332 | the summary does not depend on trial order, so recomputing it over sorted trials finds the stored one |
| `ReleaseDecision.SmokeNeverPasses` | src/edagym/release_e2e.py:941-1002 | the summary of any projected trials, none included, is not PASSED |
| `ReleaseDecision.SuiteNeverPasses` | src/edagym/release_reporting.py:1402-1458 | the campaign suite is not PASSED when its smoke evidence was projected |
| `ReleaseDecision.DecisionIsWorst` | src/edagym/release_reporting.py:1522-1527 | the decision is READY only if every source passed, and otherwise names the worst source |
| `ReleaseDecision.FailedSourceBlocks` | src/edagym/release_reporting.py:549-564 | the report is BLOCKED if and only if authoring, a backend capability, a flow, the campaign suite, a participant mode, the repository, the private roots, the executor or a command failed |
| `ReleaseDecision.SuiteMeans` | src/edagym/release_reporting.py:1402-1458 | one failed campaign of the four fails the suite, and a passed suite has four passed campaigns of one provider profile, passed smoke evidence and comparable routes, tasks, seeds and efforts |
| `ReleaseDecision.RollupMeans` | src/edagym/release_e2e.py:941-1026 | a requirement failed in one trial fails the summary, except the tools, for which one better trial is enough, and the stateful ones, which only the training trial decides |
| `ReleaseDecision.ReportNeverReady` | src/edagym/release_reporting.py:724-751 | a report assembled from projected evidence is never READY and meets the clauses that recompute its counts and decision |
| `ReleaseCommands.RunInvocations` | src/edagym/release_commands.py:580-601 | receipts record every invocation in order, if and only if all end and a passing authoring contract prints a valid receipt for the public catalog |
| `ReleaseCommands.Execute` | src/edagym/release_commands.py:513-616 | returns if and only if the audit, the timeout and the installation are as required and nothing aborts; the receipt meets its validator, binds the installation and is never UNAVAILABLE |
| `ReleaseCommands.MarkUnavailable` | src/edagym/release_commands.py:626-677 | the stand-in receipt is valid, UNAVAILABLE and bound to the same installation |
| `ReleaseCommands.ExecuteAll` | src/edagym/release_commands.py:445-510 | the exact condition for returning; whenever it returns, each purpose occurs once in order, dependents bind the one installation and are UNAVAILABLE if and only if it did not pass, and the projection meets every command clause of the report |
| `ReleaseCommands.DependentsFollowInstallation` | src/edagym/release_commands.py:62-75 | authoring contract, schema exports, static analysis and tests bind the installation and are UNAVAILABLE if and only if it did not pass; the guest build and the final state do neither |
| `ReleaseCommands.SuiteMeetsReport` | src/edagym/release_reporting.py:512-548 | every complete suite meets every command clause of the report for the same audit and catalog |
| `ReleaseCommands.ParseContract` | src/edagym/authoring/contracts.py:20-58 | an output is accepted exactly when it decodes to the current revision, provider schema and public catalog, whose digest it then carries |
| `ReleaseCommands.PreimagesDiffer` | src/edagym/release_reporting.py:482-496 | no two commands share a plan or a receipt, so equal digests would be a collision |
| `Visibility.AudiencesArePartiallyOrdered` | src/edagym/resolution.py:418-432 | the table is a partial order with least and greatest audience, and not total |
| `Visibility.WhoSees` | src/edagym/resolution.py:418-432 | participant material is seen by everybody but the public, and that of reviewer, verifier and author only by themselves and the author |
| `Visibility.SensitivitiesAreOrdered` | src/edagym/resolution.py:412-417 | sensitivities are linearly ordered from public to secret |
| `Visibility.ChainsKeepVisibility` | src/edagym/resolution.py:418-438 | along any chain of derivations whoever sees the end may see every step |
| `Visibility.ValidateFiles` | src/edagym/resolution.py:433-448 | the nested checks accept exactly the releases in which every file may derive from each of its sources |
| `Visibility.NothingHiddenIsReadable` | src/edagym/resolution.py:433-448 | in an accepted release nothing an audience can read derives from a resource hidden from it, and neither sensitivity nor redistribution is weakened |
| `Visibility.HiddenSourcesDisjoint` | src/edagym/release_e2e.py:1053-1102 | the check passes if and only if the qualification is known, no hidden resource is open, no open file names one, and the assets are disjoint |
| `Visibility.IntersectionIsImplied` | src/edagym/release_e2e.py:1084-1091 | in an accepted release the source-intersection clause can never be the one that fails |
| `Visibility.IntersectionMattersUnchecked` | src/edagym/release_e2e.py:1084-1091 | without the release check it can fail |

## Left out

- Texts are sequences of Unicode scalar values: input bytes that are not UTF-8, which the Go decoder replaces by U+FFFD before the comparison with the original bytes refuses them, are not part of the model.
- The typed decoding of the other launch fields and the remaining clauses of `validLaunch` can only refuse more messages.
- SHA-256, base64 and the module environment of a lease are opaque; a lease's environment variables are not part of the model.
- File ownership, modes and `fsync` appear only where a check depends on them; `chmod` races and changing inode identities do not occur in a model whose source tree is a value.
- Operating-system failures are parameters (`failing`, `Faults`, `Outcome`, `environmentLoads`), never derived from an operating-system model.
- GuestTransfer.MaterializeTree: the target holds nothing before the transfer; what an earlier refused launch left there counts as a refusal by the operating system.
- AgentProtocol.DeliveriesOfEveryRun: a send that writes part of a frame and then fails counts as not delivered.
- ReleaseCommands.ExecuteAll: the artifact store and the opening of executables are not part of the model; their failures are aborted invocations.
- The clock does not go back; two readings may be equal.
- Lease identifiers are issue numbers; the random suffix that keeps identifiers of two providers apart is not part of the model, a collision is.
- `LicenseRuns` lets a client name only leases it acquired or was handed by a successful consumption, as object references do in the program.
- A directory is the list of its entries in the order visited; which order `sorted` yields plays no role in what is proved about copying.
- ReleaseTrial.ProjectTrial: does not model the replay of the journal; the lists of events it looks at are inputs, and the request and invocation identifiers copied into recovery evidence are not kept.
- ReleaseCommands.PreimagesDiffer: states that the hashed plans and receipts differ, not that their digests do.
- CatalogPublication.MaterializeCatalog: the receipt file is a byte string, and member lists are digested in the order given; decoding it and the checks on derived task documents are not part of the model.
- Campaign accounting, run-journal replay, hard gates and semantic contracts are inputs; command-line parsing, container set-up, schema export, Git audits, participant operations and layout bindings are not part of the model.
