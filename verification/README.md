# Change control and policy analysis for FortiGate devices

A Dafny model of the parts of the FortiGate MCP server where correctness is hard to see by reading:
the change engine (preview, apply, roll back), the firewall policy analysis and its score, address
overlap detection, the session cache, and copying objects across a fleet.

`dafny verify dfyconfig.toml` checks everything.

## What is modelled

**Change engine** (`Json`, `Diff`, `ModePolicy`, `ChangeDispatch`, `ChangeModel`, `ChangeInvariants`,
`ChangeEffects`, `ChangeRollback`, `ChangeRuns`, `ChangeService`). `ChangeModel` gives each service call as a
step on a state that holds the change records, the audit snapshots, the clock, the mode and the devices. A log
of successful device writes is added for the specification. `ChangeInvariants` proves what holds over every
run, in which the environment may answer reads and writes in any way, let time pass, change the mode and edit
the devices. `ChangeEffects` says from the request alone what each call refuses, records and writes, and where.
`ChangeRollback` proves what rolling back a single change restores, as an if-and-only-if, and `ChangeRuns`
what it restores over whole runs, in which changes of different objects may be undone in any order and
anything may happen to objects that a claim is not about. The class in `ChangeService` has the service's own
fields and is proved to take exactly these steps. Stored states are canonical JSON texts, modelled as token
sequences with a parser that reads them back.

**Policy analysis** (`Policies`, `Shadowed`, `Duplicate`, `Diagnosis`, `Checks`, `Scoring`,
`AnalysisService`). `find_matching_policy` gives a rule list its meaning: the first enabled match. A probe
fixes a name for some of the five match fields, so that one theorem covers both the questions that
`find_matching_policy` answers and full five-field traffic. Findings are proved against that meaning, and each
report is also described from the raw policies (`Selection` has the filters that keep order).

**Address overlap** (`Overlap`). Interval classification read as statements about sets of addresses, and the
nesting of CIDR blocks (section 3.1 of RFC 4632).

**Sessions and fleet** (`SessionCache`, `ConnectionManager`, `FleetCompare`, `FleetService`). Conservation of
adapters over every run of the cache, the comparison of two devices as a partition, and the create-missing
loop as a step that converges, for one destination and for a fleet of devices known by their ids.

## Assumptions

- A service call is one atomic step. The code holds no lock between the status check and the device write
  (change_service.py:164-196; `OverlappingAppliesBreakInvariant` shows what is at stake) or between a cache
  lookup and the store (connection_manager.py:113-119).
- A device write that raises has had no effect, and a database commit does not fail.
- The device stores what it is sent. PUT either replaces the object or merges into it; which one is a
  parameter. A missing body counts as an empty one. Creating over an existing object, and changing or
  deleting a missing one, is refused, as is a body that is not an object.
- The clock of the change engine does not run backwards. Change ids are chosen by the environment; a repeated
  one fails the preview, as the unique column does.
- Inventory rows with the same device id are the same row (models_orm.py:74); names may repeat across sites.
- Policy ids are compared as text (diagnosis.py:19-20) and represented by that text. Deleting by id assumes
  that ids are distinct. Lower-casing is done on ASCII letters, which decides the two wildcard words.

## Where code and documentation differ

- docs/USAGE.md:9 says that apply refuses when the device changed since the preview. A failed GET is read as
  None (change_dispatch.py:188-191), so that is not always so. `DriftIffSeenDiffers` proves for every type and
  for reads that may fail that apply refuses exactly when what it sees differs from what the preview saw;
  `DriftIffTargetChanged` turns this into the exact condition under which a change of the target is caught, and
  under which an unchanged target is refused. `EditBetweenFailedReadsIsOverwritten` is a run in which an edit of
  a policy is written over; `NoGetterNoDrift` shows that drift is never found for address objects, service
  objects and VDOMs, which have no getter.
- docs/USAGE.md:52 calls the rollback of an update or delete exact. `RollbackRestoresIff` gives the exact
  condition; `UpdateRunRestoresIff` gives it for preview, apply and rollback of one update with truthful reads,
  and `MergedKeySurvivesRollback` is a run on a device whose PUT merges that does not end where it started. With
  nothing read (`UnreadUpdateRunRestoresIff`) the rollback of an update sends an empty body: `AddressObjectIsWiped`
  is a run on a replacing device that leaves an address object empty. `DeleteRunRestoresIff` proves that the
  rollback of a delete re-creates the object as it was, under whatever id it gets.
- README.md:126 says that safe mode rejects deletes. Rollback is not gated by the mode (`RollbackIgnoresMode`):
  `SafeModeDeletes` is a run in safe mode that deletes a policy, and `DeletesOutsideFullModeUndoCreates` proves
  that outside full mode the deletions are exactly the rollbacks of creates.
- duplicate.py:1-2 says that removing either of two duplicates has no effect. `DroppingMemberIff` gives the exact
  condition for dropping one member of a group, enabled or not. `EarlierMemberCannotAlwaysGo` is a counterexample
  with a deny in between, `DisabledTwinIsNoBackup` one with nothing in between: the status is no part of the key.
- A range whose start lies behind its end is empty, yet `BackwardsReportedIff` says when it is reported, and
  `EmptyRangeIsReported` is such a report; `ClassificationIsRightIff` says exactly when the report is right.
- docs/TOOLS.md:167 promises replication to every device matched by the destination. The source is recognised by
  its name (fleet_service.py:214), which is unique within a site only (models_orm.py:72): a device of the same name
  at another site is skipped without a line in the report. `ReplicationConvergesIff` says exactly which
  destinations end up with nothing missing, and `NamesakeKeepsMissing` is a call that does nothing at all.
- A list that cannot be read raises out of the replication (fleet_service.py:225-228 catches ValueError only).
  `RaisedIff` says exactly when, and `RaisedMidway` what has been written by then, of which there is no report.
- A resource type given twice is reported as if nothing had been created (`RepeatedTypeHidesCreates`).
- connect reads an empty vdom as the default, disconnect takes it literally (`DisconnectUndoesConnectIff`).
- A pair of items can be listed as different with no changed fields (`DifferentWithoutChangesIff`).

## Model

| member | source | states |
|---|---|---|
| Json.LoadsDumps | src/fortinet_mcp/services/change_service.py:41-42 | parsing the sorted dump of any JSON value gives the value back, at any nesting |
| Json.RestoreCanonical | src/fortinet_mcp/services/change_service.py:180-180 | a stored state, None included, reads back as the state it was made from |
| Json.CanonicalEqualIff | src/fortinet_mcp/services/change_service.py:177-178 | the text comparison of the drift check passes exactly when the two states are the same value |
| Json.CanonicalFinerThanEquality | src/fortinet_mcp/domain/diff.py:31-31 | the drift check is strictly finer than the equality the diff uses |
| Json.OrEmptyIs | src/fortinet_mcp/domain/diff.py:26-27 | `or {}` gives the empty dict exactly for None, False, 0, "" and the empty list, and otherwise the value |
| Json.PyEqDicts | src/fortinet_mcp/domain/diff.py:31-31 | dicts are equal exactly when they have the same keys with equal values |
| Json.PyEqLists | src/fortinet_mcp/domain/diff.py:31-31 | lists are equal exactly when they have the same length and equal items place by place |
| Json.PyEqScalars | src/fortinet_mcp/domain/diff.py:31-31 | scalars are equal by value, True and False being 1 and 0, and values of other kinds never are |
| ModePolicy.PermitsIff | src/fortinet_mcp/services/mode_policy.py:38-49 | full mode permits everything, safe mode everything but deletes, read-only mode nothing |
| Diff.ComputeDiff | src/fortinet_mcp/domain/diff.py:12-34 | fails exactly for an update between values that are not dicts; otherwise the document carries the proposed data (create), what was there (delete), or exactly the keys that differ with both values (update), and patching what was there with it gives what is proposed, and back |
| Diff.DocumentIs | src/fortinet_mcp/domain/diff.py:21-33 | the same of the function that specifies the document, None and empty values included |
| Ordering.SortedAscends | src/fortinet_mcp/domain/diff.py:28-28 | the keys come in ascending order by code point, each once |
| Ordering.LeqIff | src/fortinet_mcp/domain/diff.py:28-28 | one text comes before another exactly when it is a prefix of it or has the smaller character at the first place where they differ |
| Diff.DiffFields | src/fortinet_mcp/domain/diff.py:25-33 | the loop over sorted keys collects exactly the keys whose values differ, with both values |
| Diff.RedoGivesAfter | src/fortinet_mcp/domain/diff.py:25-33 | patching the old state with the "after" values gives the new state, a None counting as absent |
| Diff.UndoGivesBefore | src/fortinet_mcp/domain/diff.py:25-33 | patching the new state with the "before" values gives the old state |
| Diff.NoChangesIff | src/fortinet_mcp/domain/diff.py:28-33 | no changed fields exactly when the two dicts agree |
| Diff.ChangedFieldsReverse | src/fortinet_mcp/domain/diff.py:28-33 | comparing the other way round swaps "before" and "after" in every entry |
| ChangeDispatch.UnwrapRecoversIff | src/fortinet_mcp/services/change_dispatch.py:149-161 | unwrapping recovers the object from every envelope except a bare object with a "results" key |
| ChangeDispatch.FaithfulReadCapturesIff | src/fortinet_mcp/services/change_dispatch.py:164-192 | a truthful GET captures the state of the target, with the same single exception |
| ChangeDispatch.TableIff | src/fortinet_mcp/services/change_dispatch.py:16-138 | which types are known, read, created, updated, deleted, singletons or global, against the table of operations written out type by type |
| ChangeDispatch.UnwrapIs | src/fortinet_mcp/services/change_dispatch.py:149-161 | what is unwrapped from a list of results, an empty one, a single result, and a response without results |
| ChangeDispatch.CreatedIdIs | src/fortinet_mcp/services/change_dispatch.py:247-255 | the id read from a create response: a text mkey as it is, a number in digits, a truth value by its name, none without an mkey |
| ChangeDispatch.DecimalIsCanonical | src/fortinet_mcp/services/change_dispatch.py:255-255 | that text of a number has digits only and no leading zero |
| ChangeDispatch.DecimalRoundTrip | src/fortinet_mcp/services/change_dispatch.py:247-255 | a numeric mkey turned into text denotes the same number |
| ChangeDispatch.WriteFrame | src/fortinet_mcp/services/change_dispatch.py:195-217 | a write changes no object but the addressed one |
| ChangeDispatch.Adapter.ExecuteOn | src/fortinet_mcp/services/change_dispatch.py:195-217 | the dispatch of a write: unknown type, unsupported operation, failure, or exactly the addressed change |
| ChangeInvariants.InvariantOfRuns | src/fortinet_mcp/services/change_service.py:157-266 | in every reachable state the status of each record fixes its device writes (none; one forward; one forward then one inverse), its one snapshot or none, its times and its diff; `ChangeInvariants.AuditSnapshot` says what the snapshot holds |
| ChangeInvariants.AuditSnapshot | src/fortinet_mcp/services/change_service.py:198-209 | over every run an applied or rolled-back change has exactly one snapshot, with the device, vdom, type, id and time of the record, and the state before as its content; other changes have none |
| ChangeInvariants.SnapshotHoldsWhatPreviewSaw | src/fortinet_mcp/services/change_service.py:206-206 | over every run, with an honest read at the preview, every snapshot of the change holds the canonical text of the live state that the preview saw |
| ChangeInvariants.PreviewKeeps | src/fortinet_mcp/services/change_service.py:96-147 | preview keeps the invariant |
| ChangeInvariants.ApplyKeeps | src/fortinet_mcp/services/change_service.py:157-219 | apply keeps the invariant, on success and on every error |
| ChangeInvariants.RollbackKeeps | src/fortinet_mcp/services/change_service.py:221-266 | rollback keeps the invariant, on success and on every error |
| ChangeInvariants.EveryForwardWriteWasPermitted | src/fortinet_mcp/services/change_service.py:163-171 | over every run each forward write was allowed by the mode in force and came no later than the expiry |
| ChangeInvariants.PreviewedIsDone | src/fortinet_mcp/services/change_service.py:110-188 | the stored diff documents the step from the live state just before the write to the data written (patching the one with it gives the other, and back), for every create and every write whose target was read, whatever was edited in between |
| ChangeInvariants.DeletesOutsideFullModeUndoCreates | src/fortinet_mcp/services/mode_policy.py:38-49 | over every run, a write logged outside full mode is a deletion exactly when it is the rollback of a create |
| ChangeInvariants.RollbackIgnoresMode | src/fortinet_mcp/services/change_service.py:221-266 | a rollback that succeeds would succeed alike in every mode, and deletes exactly when it undoes a create |
| ChangeInvariants.SafeModeDeletes | src/fortinet_mcp/services/change_service.py:234-245 | a run in safe mode whose rollback deletes the policy that its apply created |
| ChangeInvariants.RecordsOnlyEvolve | src/fortinet_mcp/services/change_service.py:160-264 | over every run no record is lost, no status moves backward, and nothing previewed changes |
| ChangeInvariants.OnlyLoggedWrites | src/fortinet_mcp/services/change_service.py:157-266 | a call changes a device only by one logged write, and only apply and rollback do |
| ChangeInvariants.ReadOnlyOnlyRollsBack | src/fortinet_mcp/services/mode_policy.py:38-45 | over every run in read-only mode nothing is proposed and every device write is a rollback |
| ChangeInvariants.OverlappingAppliesBreakInvariant | src/fortinet_mcp/services/change_service.py:164-196 | two applies of one change that load it and pass the checks before either writes would write twice, and of two objects created the record names the second only: the exactly-once claim rests on a call being one step |
| ChangeInvariants.PendingIsApplicable | src/fortinet_mcp/services/change_service.py:268-276 | list_pending holds exactly the changes that pass the status and expiry checks of apply, less those expiring this instant |
| ChangeInvariants.ListedNotAtExpiryInstant | src/fortinet_mcp/services/change_service.py:166-169 | at the expiry instant a proposed change is not listed and yet passes those checks |
| ChangeInvariants.DriftIffSeenDiffers | src/fortinet_mcp/services/change_service.py:173-178 | after any run between preview and apply, a drift error exactly when what the read at apply shows differs from what the read at preview showed, a read that fails or is not made showing None |
| ChangeInvariants.DriftIffTargetChanged | src/fortinet_mcp/services/change_service.py:173-178 | a changed target is refused exactly when its type is read and a read that succeeds sees the difference; an unchanged one exactly when one of two reads fails on an existing object |
| ChangeInvariants.EditBetweenFailedReadsIsOverwritten | src/fortinet_mcp/services/change_dispatch.py:186-191 | a run in which both reads fail and apply writes over whatever an edit left in between |
| ChangeInvariants.NoGetterNoDrift | src/fortinet_mcp/services/change_dispatch.py:180-183 | for a type without a getter apply never reports drift |
| ChangeEffects.PreviewRefusals | src/fortinet_mcp/services/change_service.py:106-116 | when preview succeeds and which error it gives otherwise, in terms of mode, device, type, data and what the read showed; no refusal changes anything |
| ChangeEffects.PreviewRecords | src/fortinet_mcp/services/change_service.py:110-135 | a successful preview stores the request as it was made, both states, a diff that documents them, and an expiry 600 seconds on |
| ChangeEffects.ApplyRefusals | src/fortinet_mcp/services/change_service.py:160-173 | each refusal of apply before the drift check and when it comes; only an expired change is marked, nothing else changes |
| ChangeEffects.ApplyWriteFails | src/fortinet_mcp/services/change_service.py:181-188 | past the drift check apply fails exactly for an unknown type or unsupported operation, or else because the write fails |
| ChangeEffects.RollbackRefusals | src/fortinet_mcp/services/change_service.py:226-242 | each refusal of rollback before the write and when it comes; success changes the status of the one record, failure nothing |
| ChangeEffects.ExecuteSucceedsIff | src/fortinet_mcp/services/change_dispatch.py:203-217 | a supported write that the device answers succeeds exactly when the object the request addresses is absent (create) or present (update, delete) and the body is a dict |
| ChangeEffects.ApplyActsOnRequest | src/fortinet_mcp/services/change_service.py:180-188 | whatever happened since the preview, a successful apply writes the proposed data to the object addressed by device, type, id and the vdom asked for (the configured one for None or "", none for global types), and changes no other object |
| ChangeEffects.RollbackActsOnRequest | src/fortinet_mcp/services/change_service.py:232-254 | whatever happened before and after the apply, a successful rollback deletes what was created, writes back what the preview saw, or creates it again, in that same place, and changes no other object |
| ChangeRollback.PutBackRestoresIff | src/fortinet_mcp/services/change_service.py:247-251 | writing a saved object back after an update restores the object exactly under a condition on live, new and saved keys |
| ChangeRollback.CapturedPutBackIff | src/fortinet_mcp/services/change_service.py:247-251 | with the whole object captured the condition is: PUT replaces, or the update added no key |
| ChangeRollback.UncapturedPutBackIff | src/fortinet_mcp/services/change_dispatch.py:189-191 | with nothing captured an update is undone exactly when there was nothing to undo |
| ChangeRollback.UpdateRunIff | src/fortinet_mcp/services/change_service.py:96-266 | previewing, applying and rolling back an update of any type, whatever was read, ends on the object given by the three writes, and on the starting device exactly when putting back what was read restores it |
| ChangeRollback.UpdateRunRestoresIff | src/fortinet_mcp/services/change_service.py:247-251 | with truthful reads of a policy: exactly when PUT replaces or the update adds no key |
| ChangeRollback.UnreadUpdateRunRestoresIff | src/fortinet_mcp/services/change_dispatch.py:180-191 | with no getter or failing reads the run wipes the object or leaves the update in place; when that is the starting device |
| ChangeRollback.AddressObjectIsWiped | src/fortinet_mcp/services/change_service.py:247-251 | a run on an address object that ends with an empty object |
| ChangeRollback.DeleteRunRestoresIff | src/fortinet_mcp/services/change_service.py:252-260 | previewing, applying and rolling back a delete re-creates the object as it was; the device is as at the start exactly when it gets its old id |
| ChangeRollback.MergedKeySurvivesRollback | src/fortinet_mcp/services/change_service.py:247-251 | a run on a merging device that previews, applies and rolls back an update and does not end where it started |
| ChangeRollback.RollbackRestoresIff | src/fortinet_mcp/services/change_service.py:221-266 | a successful apply and rollback give all devices back exactly when the created id was reported, the saved state puts back what was there, or the deleted object returns under its id |
| ChangeRuns.ExecuteIsLocal | src/fortinet_mcp/services/change_dispatch.py:195-217 | what a write does to the addressed object depends on that object alone, and no other object changes |
| ChangeRuns.DisciplinedRunKeepsChains | src/fortinet_mcp/services/change_service.py:157-266 | over any run that rolls back, of each watched object, the latest open change first, mixed with any other calls and with outside edits of other objects, the open changes of each watched object form a chain to its state at the start |
| ChangeRuns.UndoneSlotIsRestored | src/fortinet_mcp/services/change_service.py:157-266 | once all changes of a watched object are rolled back it is as at the start, whatever is open on others and whatever calls and outside edits did to objects not watched |
| ChangeRuns.AllUndoneRestoresDevice | src/fortinet_mcp/services/change_service.py:157-266 | with every object watched: whenever all changes of the run are rolled back the devices are as at the start |
| ChangeRuns.ApplyAllRollBackAll | src/fortinet_mcp/services/change_service.py:157-266 | applying any list of undoable changes and rolling them back in reverse restores every device |
| ChangeRuns.ApplyAllRollBackAnyOrder | src/fortinet_mcp/services/change_service.py:157-266 | applying undoable changes of different objects and rolling them back in any order restores every device |
| ChangeService.ChangeService.Preview | src/fortinet_mcp/services/change_service.py:96-147 | preview is the step of that name on the service's state |
| ChangeService.ChangeService.Apply | src/fortinet_mcp/services/change_service.py:157-219 | apply is the step of that name, with its error order, record update, snapshot and device write |
| ChangeService.ChangeService.Rollback | src/fortinet_mcp/services/change_service.py:221-266 | rollback is the step of that name |
| ChangeService.ChangeService.constructor | src/fortinet_mcp/services/change_service.py:81-91 | a new service starts in the state from which all runs begin |
| Policies.FindMatchingPolicy | src/fortinet_mcp/domain/analysis/diagnosis.py:96-121 | the search loop returns the first policy not disabled such that, for source, destination and (if asked) service, some entry of the field has that name or is a wildcard word, and None exactly when there is no such policy |
| Policies.NamesOfIff | src/fortinet_mcp/domain/analysis/_util.py:9-14 | a name is among those of a field exactly when some entry of it has that name, or has no name and the name is empty |
| Policies.WildcardNameIff | src/fortinet_mcp/domain/analysis/_util.py:17-18 | the wildcard words are "all" and "any" in every spelling of upper and lower case, and no others |
| Policies.AcceptsIff | src/fortinet_mcp/domain/analysis/diagnosis.py:109-118 | a field accepts a value exactly when some entry of it names the value or is a wildcard word |
| Policies.AnswerIs | src/fortinet_mcp/domain/analysis/diagnosis.py:105-121 | the specification of the search gives that same first policy, told from the raw entries |
| Policies.FirstMatchIff | src/fortinet_mcp/domain/analysis/diagnosis.py:105-120 | a hit with no hit before it is the answer |
| Policies.NoMatchIff | src/fortinet_mcp/domain/analysis/diagnosis.py:105-121 | no answer exactly when no policy hits |
| Policies.FinitelyManyProbesDecide | src/fortinet_mcp/domain/analysis/diagnosis.py:105-121 | two rule lists decide all traffic alike exactly when they decide alike the finitely many probes over the names mentioned and one more |
| Shadowed.FindShadowedPolicies | src/fortinet_mcp/domain/analysis/shadowed.py:21-40 | one finding per pair of enabled policies where the earlier shadows the later, in order |
| Shadowed.ReportIs | src/fortinet_mcp/domain/analysis/shadowed.py:24-40 | the report has one finding for each pair of positions, in increasing order, of policies not disabled of which the earlier shadows the later, under their two ids |
| Shadowed.FieldCoversIff | src/fortinet_mcp/domain/analysis/_util.py:21-28 | the field test decides inclusion of accepted values over unboundedly many names |
| Shadowed.ShadowsIff | src/fortinet_mcp/domain/analysis/shadowed.py:15-18 | one policy shadows another, or the other has an empty field, exactly when all traffic matching the other matches the one |
| Shadowed.ShadowsMatches | src/fortinet_mcp/domain/analysis/shadowed.py:15-18 | shadowing carries over to questions that fix any part of the fields |
| Shadowed.FindingsIff | src/fortinet_mcp/domain/analysis/shadowed.py:26-39 | a finding is reported exactly for such a pair |
| Shadowed.FirstMatchIsNotShadowed | src/fortinet_mcp/domain/analysis/shadowed.py:1-5 | a policy reported as shadowed is never the answer to a question |
| Shadowed.DeletingShadowedKeepsMeaning | src/fortinet_mcp/domain/analysis/shadowed.py:1-5 | deleting any of the reported policies, all at once too, changes the answer to no question |
| Shadowed.NothingLeftToReport | src/fortinet_mcp/domain/analysis/shadowed.py:21-40 | after one such deletion the report is empty |
| Shadowed.SurvivingShadower | src/fortinet_mcp/domain/analysis/shadowed.py:26-29 | every shadowed policy is shadowed by one that is not itself shadowed |
| Duplicate.Groups | src/fortinet_mcp/domain/analysis/duplicate.py:15-18 | the grouping loop gathers exactly the policies of each key, keys in order of first appearance |
| Duplicate.FindDuplicatePolicies | src/fortinet_mcp/domain/analysis/duplicate.py:14-31 | one report per key with more than one policy, in order |
| Duplicate.ReportedIff | src/fortinet_mcp/domain/analysis/duplicate.py:20-30 | a key is reported exactly when two policies share it, with the ids of all that do |
| Duplicate.KeysEqualIff | src/fortinet_mcp/domain/analysis/duplicate.py:17-17 | two policies have the same key exactly when they have the same names in all five fields and the same action |
| Duplicate.ReportedIds | src/fortinet_mcp/domain/analysis/duplicate.py:21-29 | a report names in list order all policies, two or more, that share the key of its first one |
| Duplicate.KeysInOrder | src/fortinet_mcp/domain/analysis/duplicate.py:15-18 | the keys come in the order of their first policies |
| Duplicate.ReportedKeys | src/fortinet_mcp/domain/analysis/duplicate.py:21-22 | the reports come in the order of their keys, one for each key with two policies or more |
| Duplicate.KeepingFirstEnabledKeepsMeaning | src/fortinet_mcp/domain/analysis/duplicate.py:1-4 | dropping all members of a group but the first enabled one changes the answer to no question |
| Duplicate.DroppingMemberIff | src/fortinet_mcp/domain/analysis/duplicate.py:1-4 | dropping any one member of a group has no effect exactly when it is disabled, or an enabled twin is in front, or the differing policies up to the next enabled twin are screened, or without such a twin the policies behind back it up |
| Duplicate.DroppingIff | src/fortinet_mcp/domain/analysis/duplicate.py:1-4 | dropping any policy has no effect exactly when all that reaches it is decided alike behind it |
| Duplicate.LaterMemberCanGo | src/fortinet_mcp/domain/analysis/duplicate.py:1-4 | dropping a member behind an enabled one changes the answer to no question |
| Duplicate.BackedUpOnFinitelyMany | src/fortinet_mcp/domain/analysis/duplicate.py:1-4 | being backed up is decided by finitely many probes |
| Duplicate.ScreenedOnFinitelyMany | src/fortinet_mcp/domain/analysis/duplicate.py:1-4 | screening is decided by finitely many probes |
| Duplicate.SameActionBetween | src/fortinet_mcp/domain/analysis/duplicate.py:1-4 | with no enabled policy of another action in between the earlier member can go |
| Duplicate.EarlierMemberCannotAlwaysGo | src/fortinet_mcp/domain/analysis/duplicate.py:1-2 | a reported pair with a deny in between where dropping the first flips a decision |
| Duplicate.DisabledTwinIsNoBackup | src/fortinet_mcp/domain/analysis/duplicate.py:14-31 | a reported pair with nothing in between, one disabled, where dropping the enabled one loses the traffic |
| Diagnosis.EarlierDenyCovering | src/fortinet_mcp/domain/analysis/diagnosis.py:23-37 | the first enabled deny in front of the target that covers it |
| Diagnosis.DiagnosePolicy | src/fortinet_mcp/domain/analysis/diagnosis.py:40-93 | the complaints in order, or the clean bill, or not found |
| Diagnosis.ShadowFindingIs | src/fortinet_mcp/domain/analysis/diagnosis.py:55-60 | the shadow finding exists exactly when an enabled policy in front covers the enabled target, and names the first such |
| Diagnosis.NoObviousIssueIff | src/fortinet_mcp/domain/analysis/diagnosis.py:83-92 | the clean bill exactly when the target is enabled, unrestricted and not covered by an enabled policy in front |
| Diagnosis.ComplaintsIff | src/fortinet_mcp/domain/analysis/diagnosis.py:48-81 | each complaint is raised exactly when its cause is present |
| Diagnosis.DiagnosisIs | src/fortinet_mcp/domain/analysis/diagnosis.py:40-93 | which complaints are listed for a policy, with the ids of the first enabled policy in front that covers it and the first such deny, the schedule unless it is "always" or empty, in order, and nothing else |
| Diagnosis.FindByIdAt | src/fortinet_mcp/domain/analysis/diagnosis.py:19-20 | the first policy with the id is the one that is diagnosed |
| Diagnosis.DeniedEarlierNeverMatches | src/fortinet_mcp/domain/analysis/diagnosis.py:71-81 | an enabled target denied earlier is also reported shadowed and answers no question |
| Diagnosis.UnknownIdIsNotFound | src/fortinet_mcp/domain/analysis/diagnosis.py:44-46 | not found exactly when no policy has the id |
| Checks.FindAnyAnyPolicies | src/fortinet_mcp/domain/analysis/any_any.py:9-24 | the policies with a wildcard source, destination and service, in order |
| Checks.AnyAnyIff | src/fortinet_mcp/domain/analysis/any_any.py:12-15 | those are exactly the policies matching every source, destination and service |
| Checks.AnyAnyReportIs | src/fortinet_mcp/domain/analysis/any_any.py:9-24 | the report lists in order exactly the places of policies that match every source, destination and service |
| Checks.CheckBestPractices | src/fortinet_mcp/domain/analysis/best_practice.py:11-43 | as many medium findings as accept policies without logging, as many low ones as missing comments and disabled policies together, no high ones |
| Checks.PracticeCounts | src/fortinet_mcp/domain/analysis/best_practice.py:16-41 | the findings of each severity are counted by the policies that lack logging, lack a comment or are disabled |
| Checks.PracticesInOrder | src/fortinet_mcp/domain/analysis/best_practice.py:13-43 | the findings come policy by policy, the medium one first |
| Checks.FindUnused | src/fortinet_mcp/domain/analysis/unused_objects.py:13-21 | the nested loop over policies and fields, then the named objects outside the names referenced |
| Checks.UnusedIff | src/fortinet_mcp/domain/analysis/unused_objects.py:13-21 | an object is reported exactly when it is named and no policy names it in the given fields |
| Checks.UnusedReportIs | src/fortinet_mcp/domain/analysis/unused_objects.py:13-21 | the report lists in order, once per object, the names of exactly the unused objects |
| Checks.UnusedAppend | src/fortinet_mcp/domain/analysis/unused_objects.py:16-21 | a further policy takes out of the report exactly the objects it names, in order |
| Scoring.Deduct | src/fortinet_mcp/domain/analysis/scoring.py:36-42 | the running score falls by exactly what is listed |
| Scoring.ScoreSecurity | src/fortinet_mcp/domain/analysis/scoring.py:24-74 | the score is 100 less the sum of the listed deductions, never below 0 |
| Scoring.GradeIs | src/fortinet_mcp/domain/analysis/scoring.py:12-21 | the four thresholds of the five grades |
| Scoring.PointsAre | src/fortinet_mcp/domain/analysis/scoring.py:44-63 | what each finding costs and from which count on its category is exhausted; issues weigh 5, 2 and 1 by the places of each severity |
| Scoring.DeductionsAre | src/fortinet_mcp/domain/analysis/scoring.py:34-71 | the deductions list exactly the categories that cost something, once, with their points, in the order of the checks |
| Scoring.SumIsTotal | src/fortinet_mcp/domain/analysis/scoring.py:44-70 | the listed deductions add up to the points of all categories |
| Scoring.ScoreMonotone | src/fortinet_mcp/domain/analysis/scoring.py:24-74 | more findings in any category never raise score or grade |
| Scoring.ClampedOnlyIf | src/fortinet_mcp/domain/analysis/scoring.py:73-73 | the clamp acts only with system-config findings while the five other categories cost more than 85 points, which takes two any-any and two shadowed policies, a duplicate group and a best-practice finding |
| Scoring.UnclampedWithoutSystemIssues | src/fortinet_mcp/domain/analysis/scoring.py:44-73 | without system-config findings the caps alone keep the score between 0 and 100 |
| Scoring.ClampingHappens | src/fortinet_mcp/domain/analysis/scoring.py:73-73 | counts that cost 105 points, with no unused object among them |
| Scoring.OneCategoryKeepsSixty | src/fortinet_mcp/domain/analysis/scoring.py:1-6 | one category alone leaves at least 60, and exactly 60 only for three or more any-any policies |
| Scoring.PerfectIff | src/fortinet_mcp/domain/analysis/scoring.py:24-74 | 100 exactly when there is no rated finding at all |
| AnalysisService.ScoreDevice | src/fortinet_mcp/services/analysis_service.py:118-141 | the score over the findings of all checks |
| AnalysisService.CountsAre | src/fortinet_mcp/services/analysis_service.py:126-141 | what is counted, told of policies and objects: places, pairs of places, first members of groups, objects unused in their own fields |
| AnalysisService.AppendRaisesScoreIff | src/fortinet_mcp/services/analysis_service.py:118-141 | appending a policy raises the score exactly when the capped points freed by objects it puts to use exceed those its findings add and the deductions stay below 100; never by more than 10 |
| AnalysisService.UnusedStaysIff | src/fortinet_mcp/services/analysis_service.py:129-131 | the number of unused objects stays the same exactly when the policy names none of them |
| AnalysisService.AppendNeverRaisesScore | src/fortinet_mcp/services/analysis_service.py:118-141 | appending a policy that names no unused object never raises the score |
| AnalysisService.AppendCanRaiseScore | src/fortinet_mcp/services/analysis_service.py:129-131 | a concrete policy whose addition raises it because it puts an unused object to use |
| Overlap.ParseAll | src/fortinet_mcp/domain/analysis/overlap.py:43-48 | exactly the named objects with a range, each once, in list order, under their own name and range |
| Overlap.ParsedIff | src/fortinet_mcp/domain/analysis/overlap.py:43-48 | the places of those objects: which they are, in increasing order, and what is kept of each |
| Overlap.FindPairs | src/fortinet_mcp/domain/analysis/overlap.py:50-68 | one finding per reported index pair, in order, with the label of its ranges |
| Overlap.FindOverlappingSubnets | src/fortinet_mcp/domain/analysis/overlap.py:42-68 | one finding for every reported pair, in order, with names and label; `Overlap.ReportIsRight` says what that report contains |
| Overlap.ReportIsRight | src/fortinet_mcp/domain/analysis/overlap.py:42-68 | the findings belong to strictly increasing pairs of objects; two objects whose ranges run forwards are such a pair exactly when they share an address, and the label then says how the address sets relate |
| Overlap.PairsIff | src/fortinet_mcp/domain/analysis/overlap.py:51-56 | the reported pairs are exactly the index pairs i < j whose ranges are not kept apart |
| Overlap.PairsInOrder | src/fortinet_mcp/domain/analysis/overlap.py:51-53 | they come in strictly increasing order, so each once |
| Overlap.ClassificationIsRightIff | src/fortinet_mcp/domain/analysis/overlap.py:55-65 | the report and its label say about the two address sets exactly what is the case, if and only if both ranges run forwards or they are kept apart |
| Overlap.BackwardsReportedIff | src/fortinet_mcp/domain/analysis/overlap.py:55-65 | an empty range is reported exactly against a range spanning both its ends, as contained in it |
| Overlap.EmptyRangeIsReported | src/fortinet_mcp/domain/analysis/overlap.py:16-23 | a concrete list of two objects with such a report |
| Overlap.BlockIsProper | src/fortinet_mcp/domain/analysis/overlap.py:25-35 | a subnet's range runs forwards and contains the address it was written with |
| Overlap.BlockIff | src/fortinet_mcp/domain/analysis/overlap.py:32-35 | an address is in a subnet exactly when it agrees with the written address in as many first bits as the prefix says, by halving |
| Overlap.BlockInSpace | src/fortinet_mcp/domain/analysis/overlap.py:35-35 | a subnet lies between 0.0.0.0 and 255.255.255.255 |
| Overlap.BlockSizes | src/fortinet_mcp/domain/analysis/overlap.py:35-35 | a /32 is the one address, a /0 is all of them, each shorter prefix doubles the block |
| Overlap.RangeIs | src/fortinet_mcp/domain/analysis/overlap.py:16-39 | a range object has its two ends as given, none when one is missing; other types and a missing subnet have none; objects without a name are left out |
| Overlap.SubnetsNeverPartlyOverlap | src/fortinet_mcp/domain/analysis/overlap.py:25-35 | two subnets are disjoint, equal or nested for all addresses and prefix lengths, and are labelled so |
| SessionCache.AdaptersAreConserved | src/fortinet_mcp/infra/connection_manager.py:109-195 | in every run each adapter ever built is in exactly one of: cached under its own key, closed, handed back |
| SessionCache.FatesAreFinal | src/fortinet_mcp/infra/connection_manager.py:167-195 | over every run a closed or handed-back adapter stays so and is never cached again |
| SessionCache.ConnectGivesOpenSession | src/fortinet_mcp/infra/connection_manager.py:109-120 | a session given out is cached under its key and its adapter is open |
| SessionCache.ConnectIs | src/fortinet_mcp/infra/connection_manager.py:109-120 | for the key of device and vdom (the default for none or ""): a cached session is stamped with the time and given out, otherwise no credential, a failed probe whose adapter is closed, or a new session; nothing else changes |
| SessionCache.LastUsedIsLastConnect | src/fortinet_mcp/infra/connection_manager.py:65-66 | over every run each cached session is stamped with the time of the last successful connect for its key |
| SessionCache.ReconnectReuses | src/fortinet_mcp/infra/connection_manager.py:113-116 | connecting again builds nothing and gives the same adapter |
| SessionCache.DisconnectUndoesConnectIff | src/fortinet_mcp/infra/connection_manager.py:167-175 | disconnecting with the arguments of a connect removes its session except for an explicitly empty vdom |
| SessionCache.DisconnectIsLocal | src/fortinet_mcp/infra/connection_manager.py:167-175 | disconnecting a device, or one vdom of it, closes exactly the adapters of the sessions meant and leaves all others |
| SessionCache.DisconnectAllClosesEverything | src/fortinet_mcp/infra/connection_manager.py:177-180 | afterwards every adapter ever built is closed, except those handed back |
| SessionCache.EvictionIff | src/fortinet_mcp/infra/connection_manager.py:185-195 | a session survives exactly when it was used within the timeout; an evicted adapter is handed back unclosed |
| ConnectionManager.ConnectionManager.constructor | src/fortinet_mcp/infra/connection_manager.py:70-79 | the empty cache |
| ConnectionManager.ConnectionManager.BuildSession | src/fortinet_mcp/infra/connection_manager.py:122-165 | no adapter without a credential; a failed probe closes the adapter; otherwise a new session |
| ConnectionManager.ConnectionManager.TouchCached | src/fortinet_mcp/infra/connection_manager.py:65-66 | stamps one session and no other |
| ConnectionManager.ConnectionManager.GetSession | src/fortinet_mcp/infra/connection_manager.py:109-120 | a cached session object is returned itself; otherwise the step of that name, the new key coming last |
| ConnectionManager.ConnectionManager.Disconnect | src/fortinet_mcp/infra/connection_manager.py:167-175 | the step of that name, the other sessions keeping their order |
| ConnectionManager.ConnectionManager.DisconnectEverything | src/fortinet_mcp/infra/connection_manager.py:177-180 | the step of that name |
| ConnectionManager.ConnectionManager.EvictIdleSessions | src/fortinet_mcp/infra/connection_manager.py:185-195 | returns exactly the idle session objects, each once, in insertion order, and keeps the others in theirs |
| FleetCompare.ByKeyIff | src/fortinet_mcp/domain/fleet_compare.py:24-25 | a key is present exactly when an item has it, and holds the last such item |
| FleetCompare.KeyForIs | src/fortinet_mcp/domain/fleet_compare.py:13-18 | policies are keyed by policyid, static routes by seq-num and without one by dst, all else by name; other fields do not enter |
| FleetCompare.SortedByText | src/fortinet_mcp/domain/fleet_compare.py:28-29 | every member once, ordered by text |
| FleetCompare.SplitCommon | src/fortinet_mcp/domain/fleet_compare.py:31-38 | the loop splits the common keys into equal and differing items, with the changed fields |
| FleetCompare.CompareResourceLists | src/fortinet_mcp/domain/fleet_compare.py:21-46 | the four lists of the comparison, ordered by text |
| FleetCompare.ComparisonPartitions | src/fortinet_mcp/domain/fleet_compare.py:26-46 | the four lists partition the keys of both sides |
| FleetCompare.ComparisonMirrors | src/fortinet_mcp/domain/fleet_compare.py:26-46 | swapping the devices mirrors the comparison field by field |
| FleetCompare.ListingUnique | src/fortinet_mcp/domain/fleet_compare.py:28-32 | the order is determined when no two keys share their text |
| FleetCompare.DifferentWithoutChangesIff | src/fortinet_mcp/domain/fleet_compare.py:34-38 | a pair is listed as different without changed fields exactly when they differ only in which keys hold None |
| FleetService.Fleet.CreateAll | src/fortinet_mcp/services/fleet_service.py:169-175 | one attempt and one outcome per item in order; the accepted items are added |
| FleetService.Fleet.SyncObjects | src/fortinet_mcp/services/fleet_service.py:144-185 | unsupported type, a list that cannot be read, plan, mode refusal, or the attempts |
| FleetService.Fleet.ReplicateTo | src/fortinet_mcp/services/fleet_service.py:223-250 | the loop over the types on one destination: a line per type, or no report when a list cannot be read |
| FleetService.Fleet.ReplicateConfig | src/fortinet_mcp/services/fleet_service.py:187-259 | mode refusal, or the report and the writes of the nested loops over destinations and types, or the writes before it raises, for dry run and confirmed run |
| FleetService.HasListIff | src/fortinet_mcp/services/change_dispatch.py:238-241 | the types that can be listed are those with a list operation in the table |
| FleetService.PlanIs | src/fortinet_mcp/services/fleet_service.py:150-151 | the plan holds, in order and as often as they occur, exactly the source items whose name equals that of no destination item |
| FleetService.SyncReportIs | src/fortinet_mcp/services/fleet_service.py:145-185 | when each report is given; in read-only mode a confirmed sync is refused and writes nothing; otherwise one attempt per planned item in order with its answer |
| FleetService.SyncWrites | src/fortinet_mcp/services/fleet_service.py:169-175 | a confirmed sync adds behind the destination list, in order, exactly the planned items whose create succeeded, and changes no other list |
| FleetService.ConfirmedAttemptsThePlan | src/fortinet_mcp/services/fleet_service.py:150-175 | the confirmed run attempts exactly what the dry run lists, in order, one outcome each; the dry run writes nothing |
| FleetService.SyncOnlyAdds | src/fortinet_mcp/services/fleet_service.py:150-175 | nothing on the destination is removed or overwritten, no other list changes, only missing source items are added |
| FleetService.NextPlanIs | src/fortinet_mcp/services/fleet_service.py:150-160 | a following dry run lists the planned items, in order and as often as before, less those whose name was created |
| FleetService.NextPlanIff | src/fortinet_mcp/services/fleet_service.py:150-160 | an item is planned again exactly when none of its namesakes was created |
| FleetService.ConvergedIff | src/fortinet_mcp/services/fleet_service.py:150-175 | nothing is left to do exactly when some create succeeded for every planned name |
| FleetService.SelfSyncIsEmpty | src/fortinet_mcp/services/fleet_service.py:150-151 | a device synced with itself has nothing to do |
| FleetService.ReportsIff | src/fortinet_mcp/services/fleet_service.py:213-250 | one report per destination not named like the source, in order and under its name: unreachable, or one line for each type |
| FleetService.RaisedIff | src/fortinet_mcp/services/fleet_service.py:225-228 | the call raises exactly when some list of a visited, reached destination cannot be read |
| FleetService.RaisedMidway | src/fortinet_mcp/services/fleet_service.py:213-250 | a call that raises has done all its work in front of one destination, part of it there, and none behind |
| FleetService.ReplicationOnlyAdds | src/fortinet_mcp/services/fleet_service.py:213-250 | lists only grow, and only those of the given types on the devices visited and reached, and only when confirmed, also when the call raises |
| FleetService.ReplicationConvergesIff | src/fortinet_mcp/services/fleet_service.py:213-250 | when every list is read and every create succeeds, nothing of a given type is missing on a reached destination exactly when it is not named like the source or nothing was missing before |
| FleetService.NamesakeIsLeftAlone | src/fortinet_mcp/services/fleet_service.py:214-215 | no list of the source or of a destination named like it ever changes |
| FleetService.NamesakeKeepsMissing | src/fortinet_mcp/services/fleet_service.py:214-215 | a confirmed call on two devices of one name that creates and reports nothing while an object is missing |
| FleetService.RepeatedTypeHidesCreates | src/fortinet_mcp/services/fleet_service.py:224-250 | with a type given twice and every create succeeding, the line of that type shows no attempts |
| FleetService.ReplicationCarriesOutPlan | src/fortinet_mcp/services/fleet_service.py:213-250 | every line of the confirmed report attempts exactly the objects of the same line of the dry run, in order, one outcome each, when neither call raises and no type is given twice |

## Left out

- Interleaving inside one call: two applies of one change, or two builds for one cache key, running at the same time.
- Writes that take effect and then raise, and failing database commits.
- Parsing of IP addresses, netmasks and JSON characters: subnets come as address and prefix length, with host bits cleared by arithmetic; JSON comes as tokens. Floating-point numbers are not modelled.
- `content_hash` of a snapshot and the message texts of findings and notes.
- ChangeDispatch.PyStr: does not model Python's text for a list or dict, which no key is.
- ChangeModel.Pending: gives the pending changes as a set, not in order of creation; `history` is not modelled.
- Two spellings of one resource: an object addressed by two ids, a device addressed by several targets (its id, name or host, device_resolution.py:53-63), or a VDOM known to the device under another name. Each spelling is its own object here, so the claims about different objects assume that they are spelled differently because they are different.
- Policies.NamesOf: assumes that names are strings, and FleetCompare.KeyFor that keys are hashable; Python raises otherwise.
- The order in which `disconnect` and `disconnect_all` close adapters: the closed adapters form a set.
- FleetService.Fleet.ReplicateConfig: is told which destinations can be reached; resolving targets and connecting are not modelled.
- HTTP, adapters, credentials, inventory, device resolution, MCP registration, formatters, documentation generator: wiring and input-output.
- `system_config` checks: independent branches whose issues enter the score as an arbitrary list.
- `search_object` and `report` of the fleet service: lookups and sums over results modelled here.
