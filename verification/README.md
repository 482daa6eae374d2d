# Verification of the operator repository and its gates

A Dafny model of the operator repository service and of the two quality gates that guard its changes,
with proofs of what their runs keep.  `dafny verify dfyconfig.toml` checks everything.

## What is modelled

**Versioned operators under concurrent writes** (`Versions`, `Repo`, `Protocol`).  An operator document
carries a revision counter, a list of versions labelled vMAJOR.MINOR.PATCH, and top-level values that
mirror the newest version.  A write reads the document, computes a new one from the list, and writes it
only if the stored document still matches a filter: the revision for an operator with versions, the
absence of versions for one without.  `Repo` holds the values, the sequential meaning of the three
requests and the repository as an object whose methods run amid the writes of other clients; `Protocol`
lets any number of clients take their steps in any order.  The two filters together still give every
successful request its place in one sequential history.

**Two stores** (`Reconciliation`, `Service`).  Documents and permission resources are written in two
calls that can stop in between.  A run is any mix of complete and half-done inserts and deletes, of
writes to documents, of edits to the grants, and of repairs that got any part of the way.  The delete
guard asks for rights, then for usage, and only then touches the stores.

**The coverage gate** (`Diff`, `Profile`, `Coverage`, `Gate`, `Limits`).  Reading a zero-context diff by counting hunk
bodies, reading and merging a coverage profile, measuring with 64-bit sums, and comparing two ratios by
64-bit products.

**The vulnerability gate** (`GoMod`, `Govulncheck`).  Reading the direct requirements of a go.mod file
with a quote-aware comment scan, and reducing findings to one entry per advisory and module.

`Text` holds what the code uses of Go's string and number functions, `Sorting` a stable sort with its
laws, `Operators` the entities and errors.  Labels follow items 2 and 11 of Semantic Versioning 2.0.0,
restricted to three numbers behind a `v`.

## What does not hold, and exactly when it does

Each point names the exact condition and, last, an input that shows the failure.

- Posting back what was read leaves an operator without versions as it was exactly when the client drops
  no empty list; a dropped one is stored as absent (`Repo.WriteBackWithoutVersions`,
  `Repo.DroppedListIsStoredAsAbsent`).
- Putting a removed version back restores the list exactly when its port lists were not absent
  (`Versions.PutUndoesRemove`, `Versions.PutBackNormalises`).
- The worst-first comparison is an order of files with totals up to 3037000499 exactly when no file
  without statements upsets it: such a file ties with every ratio, and with the paths the wrong way round
  three files form a cycle (`Coverage.WorseFirstIsOrderExactlyWhen`, `Coverage.EmptyFileUpsets`, from a
  profile on `Limits.NoReportIsInOrder`).  The bound is sharp: one beyond it three files with positive
  totals form a cycle because a product wraps (`Coverage.OrderBoundIsSharp`,
  `Coverage.WorseFirstCyclesBeyondTheBound`).
- A block is found touched exactly when one of its lines changed, unless it ends at line 2^63-1, does not
  end more lines after its start than there are changed lines, and has none of them: the walk then passes
  its end and answers true at the next changed line, wherever that lies
  (`Diff.AnswersTouchedExactlyWhen`, `Coverage.CountsTheTouchedExactlyWhen`, from a profile on
  `Limits.LastLineIsMisread`, `Limits.LastLineIsRead`).
- The lines of a diff are those of its hunks exactly when the hunks of measured files end at 64-bit line
  numbers; beyond, they go on at -2^63 (`Diff.DiffRoundTrip`, `Limits.OverlongHunkWraps`).
- The gate compares every measurement of n statements exactly if and only if n is at most 3037000500;
  for every larger n a fully covered change can fail, from three lines of profile text on, and covering
  more can turn a pass into a failure (`Gate.GateBoundIsSharp`, `Gate.PassBoundIsSharp`,
  `Limits.WrappingProfileIsMeasured`, `Limits.WrappingLinesAreRead`).
- The comment in front of the batch loop (`pkg/db/repo.go:221-222`) speaks of hang-ups only.  For other
  failures a prefix of the ids is gone, and a fault-free batch goes through exactly when its ids name
  different existing documents; two spellings of one id stop it after the first
  (`Reconciliation.BatchDeletesPrefix`, `Reconciliation.BatchSucceedsExactlyWhen`,
  `Reconciliation.BatchOfTwoSpellingsStops`).
- A delete takes the resource along exactly when the id is written in lower case; otherwise it stays
  until the next repair (`Reconciliation.DeleteTakesResourceExactlyWhen`,
  `Reconciliation.UpperCaseDeleteLeavesResource`).
- A repair beside another running instance brings the stores together exactly when no document came or
  went between its two listings (`Reconciliation.RepairBesideAnotherInstance`,
  `Reconciliation.InsertBetweenListingsLosesItsResource`).  It keeps what others grant meanwhile exactly
  when the owner lacked no right at the listing or nothing was changed
  (`Reconciliation.EditsDuringRepairKeptExactlyWhen`, `Reconciliation.GrantDuringRepairIsLost`).
- An answer of the permission service without refusals grants a whole batch exactly when it mentions
  every id; one left out is not refused (`Reconciliation.ManyGrantsExactlyWhen`,
  `Reconciliation.EmptyAnswerRefusesNobody`).
- A profile is accepted by its last mode line: an empty one after a good one spoils it
  (`Profile.ParseProfile`, `Profile.EmptyModeLineSpoils`).

## Model

| member | source | states |
|---|---|---|
| Protocol.RunsAreLinearizable | pkg/db/repo.go:243-410 | In every run of any number of clients the collection is what the requests that took effect, taken one by one with their sequential meaning in the order of the history, leave behind; every request ever acknowledged has its own place there, after its read and after that client's earlier ones, and does exactly what the request does to the document as it is at that moment |
| Protocol.SuccessIsRecorded | pkg/db/repo.go:392-400 | An acknowledged write is put on record with the positions of its read and its write |
| Protocol.NothingIsForgotten | pkg/db/repo.go:243-410 | What was acknowledged stays on record for the rest of the run |
| Protocol.PlacesFollowRealTime | pkg/db/repo.go:243-410 | Whatever any client got acknowledged before a client read took effect before that read, and so before everything that client gets acknowledged from then on |
| Protocol.RunKeepsInv | pkg/db/repo.go:243-410 | Over every run: history and collection agree, every recorded event took effect, and each client in the middle of a request holds the document as it was at its read |
| Protocol.ReachableDocumentsAreWellFormed | pkg/db/repo.go:267-379 | From documents without versions or with well-formed ones, every run reaches only documents whose list is empty, or has valid labels in ascending order, distinct non-empty images, and a top level equal to the newest version |
| Protocol.ConflictMeansRace | pkg/db/repo.go:396-410 | A conflict is reported only if another client's request on the document took effect between this client's read and its conditional write; this client's own request took no effect |
| Protocol.NotFoundMeansGone | pkg/db/repo.go:396-410 | Not-found after a miss is reported only for a document that existed and is gone, and it is still gone at the end of the run |
| Protocol.GoneStaysGone | pkg/db/repo.go:197-241 | A deleted document never comes back under its id |
| Protocol.RejectionsAreSequential | pkg/db/repo.go:267-366 | A rejected request wrote nothing and its error is the one the request has on the document it read |
| Protocol.WriteSucceedsExactlyWhen | pkg/db/repo.go:267-289 | An acknowledged conditional write goes through exactly when the document is still there and, for an update prepared without versions, still has none (last write wins), otherwise is still the very document that was read |
| Protocol.UndisturbedRequest | pkg/db/repo.go:243-410 | A client that reads and writes undisturbed gets exactly what the request does to the document: its new content, its error, or not-found; nothing else changes |
| Protocol.MissedWriteLearnsWhy | pkg/db/repo.go:396-410 | A write that misses changes nothing, and the count reports a conflict if the document is still there and not-found otherwise |
| Protocol.LostAnswerWritesAlike | pkg/db/repo.go:392-400 | A write whose answer is lost leaves the store as an answered one does |
| Protocol.LifeOfAnOperator | pkg/db/repo.go:134-289 | What is stored after an insert, an update and a delete that do not meet others: revision 1 and no versions, then the new body under the old owner at revision 2, then nothing |
| Protocol.ReadersAgree | pkg/db/repo.go:392-410 | Two clients holding the same id and revision hold the same document, whenever they read |
| Protocol.VersionsStayInRuns | pkg/db/repo.go:356-372 | Once an operator has a version it has at least one until it is deleted, under any racing removals |
| Repo.RevisionDeterminesContent | pkg/db/repo.go:392-410 | In one history, id and revision, also a missing revision, determine the content of the document |
| Repo.RevisionsGrow | pkg/db/repo.go:392-410 | A document that survives some events has a later revision, or is unchanged |
| Repo.ChangeHasWriter | pkg/db/repo.go:392-410 | A document that survived but changed was changed by a request on it that took effect in between |
| Repo.PlanMeansSequential | pkg/db/repo.go:267-379 | Field by field, the `$set`/`$inc` prepared from a document turns it into the result of the sequential request |
| Repo.PlanFailsAsSequential | pkg/db/repo.go:267-366 | Preparing a write fails exactly when the sequential request fails, with the same error |
| Repo.LateWriteIsTheRequest | pkg/db/repo.go:267-410 | However many events lie between read and write, a write whose filter still matches has the effect of the request on the document as it is then; a revision filter matches only the document that was read |
| Repo.MissMeansChange | pkg/db/repo.go:396-410 | A write that misses a document which still exists finds it changed by a request that took effect since the read |
| Repo.UpdateWritesTheBody | pkg/db/repo.go:267-289 | An update that goes through takes name, description, cost, deployment type and visibility from the body, keeps owner and versions, counts the revision up from a missing one as from zero, and sets the top level to the body while there are no versions and to the newest version otherwise |
| Repo.UpdateIsRefusedExactlyWhen | lib/versions.go:123-147 | An update of an operator with versions is refused if and only if its image is neither empty nor the newest one, or one of its three lists is given and differs from the newest version's; without versions it never is |
| Repo.VersionWriteKeepsMetadata | pkg/db/repo.go:315-379 | A put or a removal that goes through changes the list as specified, counts the revision up, sets the top level to the new newest version and changes no other field |
| Repo.RequestKeepsWellFormed | pkg/db/repo.go:267-379 | Every accepted request keeps the document invariant and never empties a version list |
| Repo.HistoryKeepsWellFormed | pkg/db/repo.go:134-410 | Every history of inserts, deletes and requests keeps the invariant of all documents |
| Repo.VersionsStay | pkg/db/repo.go:356-372 | Between two moments of a history at which a document exists it does not lose its last version |
| Repo.WriteBackWithVersions | pkg/db/repo.go:267-289 | Posting back what was read, with empty lists possibly dropped, is accepted for every well-formed operator with versions and changes nothing but the revision |
| Repo.WriteBackWithoutVersions | pkg/db/repo.go:267-289 | For an operator without versions it is accepted too, and leaves the document as it was exactly when no empty list was dropped; a dropped one is stored as absent |
| Repo.DroppedListIsStoredAsAbsent | pkg/db/repo.go:267-289 | A document with empty inputs, posted back without them, is stored with absent inputs |
| Repo.MongoRepo.WriteIf | pkg/db/repo.go:392-410 | A matching write is applied and succeeds; a miss changes nothing and is a conflict if the document exists at the count, not-found otherwise; a lost acknowledgement leaves the write done and reports the failure |
| Repo.MongoRepo.SetNewestVersion | pkg/db/repo.go:374-379 | The four top-level fields take the values of the newest version, the other fields of the update stay |
| Repo.MongoRepo.ApplyUpdate | pkg/db/repo.go:267-289 | Outcome of an update prepared from a read document on the collection as it is now: error, store and filter by case |
| Repo.MongoRepo.ApplyVersionPut | pkg/db/repo.go:315-330 | The same for putting a version; `created` says that the write went through and the label was new |
| Repo.MongoRepo.ApplyVersionDelete | pkg/db/repo.go:356-372 | The same for removing a version; an error of the check is returned and nothing is written |
| Repo.MongoRepo.OutcomeIsLinearized | pkg/db/repo.go:267-410 | From the outcome of the conditional write to the claim about the whole request, for all three requests |
| Repo.MongoRepo.UpdateOperator | pkg/db/repo.go:243-261 | With other clients writing between read and write: success is the sequential update at the moment of the write, with every field of the document stated, and changes no other document; it is invalid input exactly when one of the four top-level fields differs from the newest version read; conflict and not-found mean what they say, a server error left nothing or the whole effect; rights, malformed ids and missing documents stop it before |
| Repo.MongoRepo.PutOperatorVersion | pkg/db/repo.go:294-312 | The same for putting a version: on success the document is the one read with the new list, revision and top level; `created` exactly when it succeeded and no entry read had the label |
| Repo.MongoRepo.DeleteOperatorVersion | pkg/db/repo.go:335-353 | The same for removing a version, with the check between the rights check and the write; on success the check had passed the removed entry |
| Repo.ObjectIdIsReadExactlyWhen | pkg/db/repo.go:542-548 | An id is accepted if and only if it has 24 characters and all are hexadecimal digits in either case |
| Repo.LowerCaseIdIsItself | pkg/db/repo.go:542-548 | An id in small letters is read as itself |
| Repo.ObjectIdsIgnoreCase | pkg/db/repo.go:542-548 | Two accepted ids name the same document if and only if they differ in the case of letters only |
| Versions.GroupsAreTheMatch | lib/versions.go:26 | The matcher finds three groups exactly when the label is `v`, three numerals without leading zeros and two dots, and finds those |
| Versions.ParseVersionLabel | lib/versions.go:31-45 | The loop over the groups yields the parsed label or invalid-input |
| Versions.RenderThenParse | lib/versions.go:26-45 | Printing a triple of numbers in 0..2^63-1 and parsing it gives it back |
| Versions.ParseThenRender | lib/versions.go:26-45 | An accepted label is in range and is the print of what it parses to |
| Versions.AcceptsExactlyTheRenderings | lib/versions.go:26-45 | Exactly the printed labels are accepted |
| Versions.ComparisonIsPreorder | lib/versions.go:53-59 | The comparison is a total preorder on all labels; labels that do not parse tie with v0.0.0 and are below or level with everything |
| Versions.ComparisonSeparatesLabels | lib/versions.go:53-59 | Two accepted labels compare equal only if they are the same label |
| Versions.ComparesNumbers | lib/versions.go:53-59 | For labels printed from numbers in 0..2^63-1 the comparison is that of the major numbers, then of the minor, then of the patch numbers |
| Versions.LabelsInOrder | lib/versions.go:26-59 | v1.0.5 is below v1.1.0, v1.9.7 below v1.10.0 and v1.20.30 below v2.0.0; v1.02.0 does not parse and ties with v0.0.0 |
| Versions.PutVersion | lib/versions.go:64-90 | The scan and sort produce the specified list or refusal |
| Versions.PutIsMapUpdate | lib/versions.go:61-90 | On a well-formed list a put succeeds exactly when the label is valid, the image is non-empty and no other label has it; the result is the well-formed list of the updated map, and `created` says that the label was not in it |
| Versions.PutReplacesOneEntry | lib/versions.go:64-90 | On the elements: the entries with other labels stay, the given one is added field by field with absent lists made empty, the list ascends, and every refusal is invalid input |
| Versions.ListIsCanonical | lib/versions.go:61-90 | A well-formed list is determined by its map of labels |
| Versions.PutTwice | lib/versions.go:64-90 | Repeating a put changes nothing and creates nothing |
| Versions.PutsCommute | lib/versions.go:64-90 | Puts of two labels give the same list in either order whenever both orders go through |
| Versions.SecondPutSucceeds | lib/versions.go:75-83 | Of two puts of different labels that each go through alone, the second still does exactly when the images differ |
| Versions.RemoveIsMapRemoval | lib/versions.go:94-103 | On a well-formed list a removal is a map removal; it refuses exactly the unknown label and the only entry |
| Versions.RemoveTakesOneEntry | lib/versions.go:94-103 | On the elements: exactly the entry with the label goes, and the list still ascends |
| Versions.RemoveUndoesPut | lib/versions.go:64-103 | Removing a label that a put created gives back the list, or is refused if that was empty |
| Versions.PutUndoesRemove | lib/versions.go:64-103 | Putting a removed version back succeeds, and restores the list exactly when the removed entry had no absent port list |
| Versions.PutBackNormalises | lib/versions.go:64-103 | A version stored with absent port lists, removed and put back, comes back with empty ones |
| Versions.RemovedHasLabel | lib/versions.go:94-103 | The entry handed out by a removal carries the label |
| Versions.NewestVersion | lib/versions.go:107-121 | The scan yields the specified newest entry, none for the empty list |
| Versions.NewestIsTop | lib/versions.go:105-121 | Nothing in the list outranks it: live before deprecated, then the higher number |
| Versions.NewestIsLiveAndHighest | lib/versions.go:105-121 | It is live if any entry is, and no entry that is as live has a higher number |
| Versions.NewestIsFirst | lib/versions.go:107-121 | Of several entries that nothing outranks it is the first |
| Versions.TopIsUnique | lib/versions.go:105-121 | With distinct valid labels only one entry is not outranked |
| Versions.NewestIgnoresOrder | lib/versions.go:107-121 | With distinct valid labels it does not depend on the order of the list |
| Versions.NewestOfSorted | lib/versions.go:107-121 | On a stored list it is the last entry that is not deprecated, or the last entry when all are |
| Versions.RemoveKeepsNewest | lib/versions.go:94-121 | Removing any other version leaves the newest one |
| Sorting.SortInPlace | lib/versions.go:88 | The in-place sort leaves the stable sort of the array |
| Sorting.SortSorts | lib/versions.go:88 | The result is in order for every weak order |
| Sorting.SortPermutes | lib/versions.go:88 | The result is a permutation |
| Sorting.SortIsStable | lib/versions.go:88 | Entries that tie keep their order |
| Sorting.SortIgnoresOrder | tools/coveragegate/profile.go:288-295 | For a total order the result does not depend on the order of the input |
| Text.StringLessExactlyWhen | tools/coveragegate/profile.go:283 | A string comes before another if and only if it is a proper prefix of it or has the smaller character where they first differ |
| Text.AtoiRange | tools/coveragegate/diff.go:234-239 | A decimal numeral is read as its number exactly up to 2^63-1, with a minus down to -2^63 |
| Text.SmallNumbersAreRead | tools/coveragegate/diff.go:234-239 | Signs and leading zeros |
| Text.WhatIsNoNumber | tools/coveragegate/diff.go:234-239 | Empty text, a sign alone, a fraction and two signs are no numbers |
| Text.SpaceCharacters | tools/vulngate/gomod.go:100-101 | The white space that is trimmed, by character number |
| Reconciliation.SkipsExactlyTheIdleWrites | pkg/db/repo.go:98-113 | The write for an operator is skipped exactly when it would have changed nothing |
| Reconciliation.RepairedExactlyWhenInSync | pkg/db/repo.go:76-130 | After a completed repair permission ids equal document ids and every owner has all four rights; it has nothing to do exactly when that already holds |
| Reconciliation.RepairSetsTheOwnersRights | pkg/db/repo.go:91-128 | Each document has its resource, with the four rights of the owner set and every other user, group and role as before; agreement is spelled out likewise |
| Reconciliation.RepairKeepsOthers | pkg/db/repo.go:106-113 | The grants of other users, of groups and of roles on a surviving operator are untouched |
| Reconciliation.RepairCanBeResumed | pkg/db/repo.go:76-130 | From wherever an interrupted repair stopped, a completed one reaches what the first was heading for |
| Reconciliation.Repository.ValidateOperatorPermissions | pkg/db/repo.go:76-130 | Whatever others make of the resources after the listing: a completed run leaves what it repairs over those edits, and without edits exactly the repaired resources; it makes no write exactly when the stores agreed at the listing; a run that stops has every entry either as it found it or as repaired, and stops only at a failed listing or call |
| Reconciliation.Repository.GrantOwners | pkg/db/repo.go:91-117 | First loop: one write for each owner lacking a right at the listing, whatever the listing order |
| Reconciliation.Repository.RemoveOrphans | pkg/db/repo.go:118-128 | Second loop: exactly the resources listed without a document go, whatever the walking order |
| Reconciliation.RepairedOverItsListing | pkg/db/repo.go:76-130 | When nobody edits in between, a repair over the listing is the repair |
| Reconciliation.RepairedOverSays | pkg/db/repo.go:91-128 | What a repair leaves at each id: the resource as it is now where the owner had all four rights when listed, the listed resource with these rights set where one was missing, nothing at a listed id without document, and no change elsewhere |
| Reconciliation.EditsDuringRepairKeptExactlyWhen | pkg/db/repo.go:100-116 | The grants others have given or taken since the listing are kept if and only if the owner lacked no right at the listing or the grants are still those listed |
| Reconciliation.GrantDuringRepairIsLost | pkg/db/repo.go:100-116 | A grant given after the listing of a resource without owner is gone after the repair |
| Reconciliation.Collected | pkg/db/repo.go:86-89 | The map built from the listing is the listed resources |
| Reconciliation.DriftIsHalfDone | pkg/db/repo.go:134-241 | Over any run of complete and half-done inserts and deletes, document writes, edits of grants and repairs, the two stores disagree only about ids that some step left half done or that a delete was given in non-canonical writing |
| Reconciliation.OthersFollowSharing | pkg/db/repo.go:76-241 | Over any such run the grants of everyone but the owner are those of the last edit made to them |
| Reconciliation.RepairEndsEveryRun | pkg/db/repo.go:76-241 | One completed repair after any such run brings the stores together, keeps those grants and leaves a second run nothing to do |
| Reconciliation.RepairBesideAnotherInstance | pkg/db/repo.go:76-130 | With another instance at work between the two listings the repair brings the stores together exactly when no document came or went; a document inserted in between loses its resource |
| Reconciliation.InsertBetweenListingsLosesItsResource | pkg/db/repo.go:76-130 | One complete insert between the two listings of a repair of empty stores ends with a document without resource |
| Reconciliation.HistoryIsARun | pkg/db/repo.go:134-410 | Every history of the collection is an allowed run on both stores with the same documents, however its calls to the permission service fare |
| Reconciliation.ClientRunIsARun | pkg/db/repo.go:134-410 | So is whatever any number of clients do: the documents at the end are the same, and the claims about runs on both stores apply |
| Reconciliation.Repository.InsertOperator | pkg/db/repo.go:134-161 | The document is stored with the fields of the body, revision 1 and no versions, then the resource with the four rights of the owner and nothing else; what each failure leaves is stated, and the id is returned as soon as the document is known to exist |
| Reconciliation.Repository.CheckAdministrate | pkg/db/repo.go:166-171 | One id is asked singly, any other number in one call; who is refused, with which error |
| Reconciliation.Repository.CheckAdministrateMany | pkg/db/repo.go:184-195 | Passes if and only if the call was answered and no answer in the map is negative; no answer is a server error, a negative one missing rights |
| Reconciliation.ManyGrantsExactlyWhen | pkg/db/repo.go:184-195 | An answer without refusals grants every id of the batch exactly when it mentions them all |
| Reconciliation.EmptyAnswerRefusesNobody | pkg/db/repo.go:184-241 | An answer that mentions nobody refuses nobody and the batch deletes an existing document |
| Reconciliation.Repository.DeleteOperator | pkg/db/repo.go:197-215 | Without rights nothing happens; otherwise the document goes, then the resource under the id as given |
| Reconciliation.Repository.FindAndDelete | pkg/db/repo.go:202-214 | Malformed id, missing document and failures in this order, with the documents and resources each leaves |
| Reconciliation.Repository.DeleteOperators | pkg/db/repo.go:217-241 | The batch is reached exactly when the call was answered without a negative answer; the loop then does one delete after the other and stops at the first error |
| Reconciliation.DeleteTakesResourceExactlyWhen | pkg/db/repo.go:202-214 | A delete without faults takes the resource along exactly when the id is written in lower case; otherwise the resource stays |
| Reconciliation.UpperCaseDeleteLeavesResource | pkg/db/repo.go:202-214 | A document deleted under its id in upper case goes and its resource stays |
| Reconciliation.BatchOfTwoSpellingsStops | pkg/db/repo.go:217-241 | A batch with both spellings of one id deletes the document and then reports not-found |
| Reconciliation.BatchDeletesPrefix | pkg/db/repo.go:217-241 | Wherever a batch stops, the documents of a prefix of the ids are gone and the resources of the same prefix, except possibly that of its last id; a batch that succeeds removed all of both |
| Reconciliation.BatchEndsWithFirstFailure | pkg/db/repo.go:225-240 | A batch ends with the first delete that fails: its error, and what was left by then |
| Reconciliation.BatchSucceedsExactlyWhen | pkg/db/repo.go:217-241 | Without faults a batch goes through exactly when every id is well formed, exists, and no two name the same document |
| Reconciliation.BatchIsARun | pkg/db/repo.go:217-241 | A batch is a run of single deletes, so the claims about runs hold for batches |
| Reconciliation.RequestKeepsOwner | pkg/db/repo.go:267-379 | No update, put or removal changes whose operator it is |
| Service.Service.UsedBy | pkg/service/service.go:149-164 | The loop collects the used operators, or ends with the first missing answer or the refusal |
| Service.ReportsUsedInOrder | pkg/service/service.go:149-164 | When all answers came, exactly the ids with a positive count are reported, in request order, with their counts |
| Service.ReportsExactlyTheUsed | pkg/service/service.go:149-164 | An entry is reported if and only if it is an id of the batch with its two counts, one of them positive |
| Service.FirstMissingAnswerDecides | pkg/service/service.go:151-155 | The first missing answer decides the error, whatever follows |
| Service.GuardPassesExactlyWhen | pkg/service/service.go:149-164 | A batch passes exactly when every answer came and either force is set or every count is zero; the refusal for use is unforced, never empty and names exactly the used ids |
| Service.OneAnswer | pkg/service/service.go:149-181 | For a single operator the two answers decide: the failure of the flow repository, then of the registry, then use without force |
| Service.Service.DeleteOperators | pkg/service/service.go:130-143 | Rights, then usage, then rights again, then the repository; each refusal leaves both stores as they were; whatever was deleted, every usage answer had come and, unless forced, every count was zero, a prefix of the ids is gone, and every id was granted exactly if the permission service mentioned them all |
| Service.Service.DeleteOperator | pkg/service/service.go:113-126 | The same for one operator, with the error of either rights check |
| Service.VersionGuardSays | pkg/service/service.go:198-208 | The check of one version passes exactly when both services answered for its label and image and force is set or both counts are zero; otherwise it names the first failed service, or the operator with its counts under the label |
| Service.DeleteOperatorVersion | pkg/service/service.go:193-217 | An invalid label is refused first, then missing rights, a malformed id and a missing document; a refusal for use writes nothing and is the one of the version about to go; otherwise conflict, not-found, failure and success mean what they mean for the repository, and a success removed the version asked about, unchanged since |
| Diff.DiffIsRead | tools/coveragegate/diff.go:105-157 | Reading any rendered diff succeeds, whatever headings, extended headers and body lines look like; it yields the lines that counting up in 64 bits from the start of the hunks of measured files reaches, and none for deleted, test or other files |
| Diff.DiffRoundTrip | tools/coveragegate/diff.go:105-157 | These are exactly the lines in the ranges of the hunks of measured files, if and only if those hunks end at 64-bit line numbers |
| Diff.GoFilesAreMeasured | tools/coveragegate/diff.go:84-91 | For a file named stem.go whose stem does not end in _test, exactly the lines are read that the hunks of its sections reach |
| Diff.OtherFilesAreNotMeasured | tools/coveragegate/diff.go:84-91 | Nothing is read for a file whose name ends in _test.go or does not end in .go |
| Limits.SmallDiffIsRead | tools/coveragegate/diff.go:105-157 | Eighteen lines of git output with a changed file, a test file and a deleted file are read as two lines of the first |
| Diff.ShortBodyLosesNothing | tools/coveragegate/diff.go:124-130 | A body with fewer lines than its header promises ends at the next structural line, and what follows is read as if it were complete |
| Diff.MalformedHeaderRefuses | tools/coveragegate/diff.go:140-144 | A malformed hunk header outside a body makes the whole diff unreadable |
| Diff.HunkLinesAreTheRanges | tools/coveragegate/diff.go:43-47 | Then the lines of several hunks are the union of their ranges |
| Diff.RangeIsExactExactlyWhen | tools/coveragegate/diff.go:43-47 | The lines added for a range are those of the range if and only if it is empty or its last line has a 64-bit number |
| Diff.ReadSetsAreProper | tools/coveragegate/diff.go:105-157 | What a diff is read as has no entry without lines and only 64-bit line numbers |
| Diff.BodyIsSkipped | tools/coveragegate/diff.go:116-132 | A hunk body is passed over by count, also where its lines look like headers, and markers for a missing newline are not counted |
| Diff.HeaderRoundTrip | tools/coveragegate/diff.go:190-244 | A rendered hunk header, with or without counts of one and with any heading, is read back as its two ranges |
| Diff.HeaderIsReadExactlyWhen | tools/coveragegate/diff.go:190-226 | A header is read if and only if it has a closing marker, its first field with a minus and its first with a plus are ranges and no line is added at line zero; these are its ranges |
| Diff.RangeIsReadExactlyWhen | tools/coveragegate/diff.go:229-244 | A range is one number, standing for a count of one, or two numbers around the first comma; neither is negative |
| Diff.RangeRoundTrip | tools/coveragegate/diff.go:229-244 | A rendered range is read back, an absent count as one |
| Diff.ParseDiff | tools/coveragegate/diff.go:105-157 | The loop computes the specified scan and fails exactly when that does |
| Diff.ParseHunkHeader | tools/coveragegate/diff.go:190-226 | The loop over the fields computes the specified ranges |
| Diff.ChangedLines.AddLines | tools/coveragegate/diff.go:43-47 | The loop adds the lines of the range; an empty range adds no entry |
| Diff.ChangedLines.AddAll | tools/coveragegate/diff.go:50-56 | The inner loop adds all lines of one path, in any order |
| Diff.ChangedLines.Merge | tools/coveragegate/diff.go:50-56 | Per path the union of both sets, in whatever order the maps are walked |
| Diff.ChangedLines.Touches | tools/coveragegate/diff.go:61-82 | With 64-bit line numbers, on the sets that reading a diff gives: always ends; true exactly when a changed line lies in the interval, unless the interval is walked and ends at 2^63-1, so that the walk passes its end |
| Diff.AnswersTouchedExactlyWhen | tools/coveragegate/diff.go:68-81 | Step by step in 64 bits the code comes to answer whether a changed line lies in the interval, if and only if one does or the interval is not one that is walked and ends at 2^63-1 |
| Diff.AnswerIsFoundTouched | tools/coveragegate/diff.go:61-82 | On those sets it always comes to an answer, the one that the loops compute |
| Profile.LineRoundTrip | tools/coveragegate/profile.go:122-177 | A rendered block line is read back for every file name, also with colons, and refused only for the empty name |
| Profile.LineIsReadExactlyWhen | tools/coveragegate/profile.go:122-177 | A line is read as a block if and only if a name that is not empty ends at the last colon and is followed by two pairs of numbers around dots and one comma, a statement count and a hit count; lines start at one, counts are not negative, and the block does not end before it starts |
| Profile.RecordRoundTrip | tools/coveragegate/profile.go:68-80 | Inside a profile it is read as that block when the name does not start with white space and the line not with `mode:` |
| Profile.SpacedLineIsRead | tools/coveragegate/profile.go:68-80 | Space around a line does not matter; a blank line is skipped, a mode line aside any other is a block or unreadable |
| Profile.SmallLineIsRead | tools/coveragegate/profile.go:122-177 | The text m/a.go:1.2,3.4 5 6 between a tab and a space is read as its six numbers |
| Profile.UnreadableLineSpoils | tools/coveragegate/profile.go:77-80 | One unreadable line makes the profile refused |
| Profile.EmptyModeLineSpoils | tools/coveragegate/profile.go:73-105 | A profile that is accepted is refused once a mode line without a mode follows |
| Profile.ParseProfile | tools/coveragegate/profile.go:51-119 | Succeeds exactly when every line is readable, no two blocks with the same ends have different statement counts and the last mode line names a mode; then each pair of ends appears once with its highest count, in order of start lines and, within a line, of start columns |
| Profile.OrderDoesNotMatter | tools/coveragegate/profile.go:64-119 | Success and the set of blocks per file do not depend on the order or repetition of the block lines |
| Profile.MergedIsUnique | tools/coveragegate/profile.go:81-98 | Of one position exactly the entry with the highest count is kept |
| Profile.Grouped | tools/coveragegate/profile.go:106-108 | The blocks of one file, in the order their positions were first seen |
| Profile.SortedByStart | tools/coveragegate/profile.go:109-117 | The same blocks for every file, none before one that starts earlier; nothing is said of blocks with the same start |
| Coverage.Measure | tools/coveragegate/profile.go:240-297 | All sums in 64 bits: the repository totals are those over all merged blocks, the changed totals those over the blocks found touched, the files are exactly the paths with such blocks and add up to the changed totals, no-data lists exactly the changed paths the profile does not name, sorted, and the files are in strict worst-first order when totals are at most 3037000499 and no empty file upsets it |
| Coverage.CountsTheTouchedExactlyWhen | tools/coveragegate/profile.go:246-267 | The blocks found touched are those with a changed line, if and only if none without one ends at 2^63-1 and is walked |
| Coverage.Walk | tools/coveragegate/profile.go:244-268 | The walk over the profile computes totals and entries in any order |
| Coverage.AddFile | tools/coveragegate/profile.go:246-267 | What the blocks of one file add |
| Coverage.ReadProfilesFit | tools/coveragegate/profile.go:162-177 | Profiles that were read have 64-bit line numbers |
| Coverage.MeasurementIsUnique | tools/coveragegate/profile.go:240-297 | In whatever order the maps are walked the numbers and the no-data list are the same and the files are the same up to order, and in the same order under those conditions |
| Coverage.MeasurementBounds | tools/coveragegate/profile.go:240-297 | As long as the statements of the repository are a 64-bit integer no sum wraps: covered within total, changed within the repository, the rest covered within the rest, and each file within the change |
| Coverage.NoDataIsDisjoint | tools/coveragegate/profile.go:270-283 | A path without data has no entry among the files |
| Coverage.ReadProfilesCount | tools/coveragegate/profile.go:146-154 | Profiles that were read have no negative statement counts |
| Coverage.Listed | tools/coveragegate/profile.go:285-287 | The entries are listed once each, in any order |
| Coverage.NoDataPaths | tools/coveragegate/profile.go:270-283 | Exactly the changed paths that the profile does not name, in strict order |
| Coverage.RepoPathInverse | tools/coveragegate/profile.go:182-188 | A name maps to a path exactly when it is the module path, a slash and that path |
| Coverage.WorseFirstIsOrderExactlyWhen | tools/coveragegate/profile.go:288-295 | For totals up to 3037000499 the worst-first comparison is a strict total order of the files exactly when no file without statements lies, by path, between a better-covered file before it and a worse-covered one after it |
| Coverage.OrderBoundIsSharp | tools/coveragegate/profile.go:288-295 | For n > 0, every list with totals up to n that no empty file upsets is strictly ordered, if and only if n is at most 3037000499 |
| Coverage.WorseFirstCyclesBeyondTheBound | tools/coveragegate/profile.go:288-295 | Three files with positive totals, one past that bound, each come before the next all the way round, because a product wraps |
| Coverage.EmptyFileUpsets | tools/coveragegate/profile.go:288-295 | Three files, the middle one without statements, form a cycle at totals of one |
| Limits.ReportOrderIsOpen | tools/coveragegate/profile.go:240-297 | A profile of three files, one without statements, has the same measurement with its files in two different orders |
| Limits.NoReportIsInOrder | tools/coveragegate/profile.go:288-295 | No measurement of that profile has its files in worst-first order |
| Coverage.PositiveTotalsAreOrdered | tools/coveragegate/profile.go:288-295 | Positive totals up to the bound are strictly ordered |
| Gate.GateIsExact | tools/coveragegate/profile.go:213-229 | For totals up to 3037000500 the 64-bit comparison says what the two ratios say, and a change or a repository without statements passes |
| Gate.GateBoundIsSharp | tools/coveragegate/profile.go:213-229 | For 0 < n < 2^63, every possible measurement with n statements is compared exactly, if and only if n is at most 3037000500 |
| Gate.GateWrapsBeyondTheBound | tools/coveragegate/profile.go:213-229 | For every larger n a fully covered change fails, because one product wraps |
| Limits.WrappingProfileIsMeasured | tools/coveragegate/profile.go:213-297 | For every larger n a profile of two blocks and one changed line is measured as such a change |
| Limits.WrappingLinesAreRead | tools/coveragegate/profile.go:51-119 | Three lines of text are read as that profile |
| Gate.GateComparesWithRest | tools/coveragegate/profile.go:213-229 | When the change is not empty and not everything, failing means being covered worse than the rest of the repository, whose covered part lies within its total |
| Gate.HitMovesFigures | tools/coveragegate/profile.go:244-268 | Hitting a touched block that had no hits adds its statements to both covered figures and nothing else |
| Gate.CoveringMoreKeepsPass | tools/coveragegate/profile.go:213-229 | Covering one more touched block never turns a pass into a failure |
| Gate.PassBoundIsSharp | tools/coveragegate/profile.go:213-229 | For 0 < n < 2^63, covering more of a change among n statements never turns a pass into a failure, if and only if n is at most 3037000500 |
| Limits.LastLineIsMisread | tools/coveragegate/profile.go:240-297 | With line 1 changed, a profile with an uncovered block at line 2^63-1 is measured as a change that fails, although no block is touched |
| Limits.LastLineIsRead | tools/coveragegate/profile.go:51-119 | Three lines of text are read as that profile |
| Limits.OverlongHunkWraps | tools/coveragegate/diff.go:105-157 | Of a rendered hunk of two lines at 2^63-1 the second is read as -2^63 |
| Gate.MeasuresSameBlocks | tools/coveragegate/profile.go:240-297 | A measurement of one profile is one of every profile with the same blocks per name, in whatever order |
| Gate.VerdictIgnoresLineOrder | tools/coveragegate/profile.go:51-297 | Reordering or repeating block lines changes no figure, no entry and not the verdict, from the text of the profile on |
| GoMod.FileRoundTrip | tools/vulngate/gomod.go:91-216 | Reading a written file, with any layout, comments, path quoting, require blocks, single requires, skipped blocks and other lines, gives back the module path and exactly the required paths without the indirect marker |
| GoMod.SmallFileIsRead | tools/vulngate/gomod.go:91-147 | Five lines with a module line and a require block indented by tabs, one entry marked indirect, are read as the module path and the other path |
| GoMod.VersionlessRequirementRefuses | tools/vulngate/gomod.go:151-155 | A required path without a version, after any written items and before any lines, makes the file refused |
| GoMod.PathlessModuleRefuses | tools/vulngate/gomod.go:128-132 | So does a module line without a path |
| GoMod.MissingModuleRefuses | tools/vulngate/gomod.go:142-146 | And a file without a module line is refused |
| GoMod.SplitIsAtFirstComment | tools/vulngate/gomod.go:171-201 | Code and comment make up the line and the cut is at the first two slashes outside quotes |
| GoMod.SplitCommentOf | tools/vulngate/gomod.go:177-201 | The index loop with its extra step over escapes ends and finds that cut |
| GoMod.SkipsEscaped | tools/vulngate/gomod.go:182-189 | After the extra step the scan is inside the same quoted token, and no comment starts in what was skipped |
| GoMod.LineReads | tools/vulngate/gomod.go:171-201 | Any code that is closed on its own is read without the space around it, and its comment whole |
| GoMod.IsIndirectExactlyWhen | tools/vulngate/gomod.go:163-169 | A comment counts as the marker exactly when it is the word indirect between white space, or followed by a semicolon |
| GoMod.TokenRoundTrip | tools/vulngate/gomod.go:203-216 | A path written bare, in double quotes with its quotes escaped, or in back quotes is one token, hides its slashes from the comment scan, and is unquoted to itself |
| GoMod.BlockIsRead | tools/vulngate/gomod.go:109-126 | A require block adds exactly its unmarked paths |
| GoMod.SkippedIsRead | tools/vulngate/gomod.go:109-126 | A block of another keyword adds nothing, whatever is in it |
| GoMod.ParseGoMod | tools/vulngate/gomod.go:91-147 | The loop computes the specified reading and fails exactly when that does |
| GoMod.Requirements.AddRequirement | tools/vulngate/gomod.go:151-161 | Adds the path of an unmarked requirement; a line without a version is an error |
| Govulncheck.CollectCalled | tools/vulngate/govulncheck.go:155-205 | Fails exactly when the first frame of some called finding names no module; otherwise one entry for each advisory and module of a first frame that occurs, in strict order, with the version of the first such frame and the fix of the first finding that has one |
| Govulncheck.ReportHasExactlyTheKeys | tools/vulngate/govulncheck.go:147-190 | The keys of the report are exactly those of the called findings |
| Govulncheck.ReportsTheFirstFrames | tools/vulngate/govulncheck.go:117-131 | An advisory and a module are reported if and only if some finding of that advisory has a frame with a function and its first frame lies in that module |
| Govulncheck.RefusedExactlyWhen | tools/vulngate/govulncheck.go:163-172 | The findings are refused if and only if the first frame of a finding with a function in some frame names no module |
| Govulncheck.ReportIsInOrder | tools/vulngate/govulncheck.go:195-203 | One entry stands before another exactly when its advisory is smaller, or the advisories are the same and its module is smaller |
| Govulncheck.EntryMeans | tools/vulngate/govulncheck.go:174-182 | An entry has a fix exactly when some called finding of its key has one; its class is that of the standard library for stdlib and toolchain, direct for this module and those required directly, and otherwise transitive |
| Govulncheck.ReportIsUnique | tools/vulngate/govulncheck.go:191-203 | In whatever order the map is walked there is one report |
| Govulncheck.OrderDoesNotMatter | tools/vulngate/govulncheck.go:155-205 | Order and repetition of the findings change neither failure nor keys, nor which entries have a fix, nor which block |
| Govulncheck.BlocksExactlyWhen | tools/vulngate/govulncheck.go:142-146 | Something blocks exactly when the first frame of a called finding with a fix lies in the standard library, the toolchain, this module or one required directly |
| Govulncheck.IsCalled | tools/vulngate/govulncheck.go:108-115 | True exactly when some frame names a function |
| Govulncheck.Values | tools/vulngate/govulncheck.go:191-194 | Each entry of the map once, in any order |
| Govulncheck.KeysAreOrdered | tools/vulngate/govulncheck.go:195-203 | Advisory first, then module, is a total order of the keys |

## Left out

- HTTP handlers, JSON binding, configuration, logging, tracing, error texts and status codes.
- Listing operators (`MongoRepo.All`) and `FindOperator`: their meaning lies in the database server.
- Time stamps, and the user id set on creation by the service.
- The database server: single-document conditional updates are taken as atomic, ids as never reused, a
  missing revision as matched by a filter for none, and `$inc` on it as giving 1; documents holding an
  explicit null revision are not considered.  The counter is unbounded.
- Line splitting, line length limits and invalid UTF-8: the readers start from a sequence of lines of
  characters.  Process and file access, git invocation and the decoding of the scanner's JSON stream.
- The internals of Go's sorts: an insertion sort stands for them.  It is stable, which `sort.Slice` does
  not promise; nothing about blocks or files that tie is concluded from it.
- Errors of the readers carry no text: a reader succeeds or does not.
- Repo.MongoRepo.UpdateOperator: the answers of the permission service, the fate of each server call and
  the writes of other clients are parameters, so every combination of them is covered.
- One object as two: `Repo.MongoRepo` has the optimistic writes to a document, `Reconciliation.Repository`
  the two stores.  In runs over both stores a document write is one step at the moment it takes effect,
  which is what the runs of clients come to (`Reconciliation.ClientRunIsARun`).
- Repo.MongoRepo.FindStored: a read that the server fails ends a request before it did anything.
- Service.Service.DeleteOperators: the services' answers are parameters, one per position; a flow or
  pipeline saved between the check and the delete is not seen, as in the code.
- Service.Service.Usage: the lists of flows and pipelines the caller may read are left out, the counts stay;
  a batch asks without label and image, one version with both (`Service.DeleteOperatorVersion`).
- Reconciliation.Repository.ValidateOperatorPermissions: permission maps are values, never nil, and both
  listings are complete; another instance's inserts and deletes are covered between the two listings,
  its edits between the listing and the first write.
- Reconciliation.Repository.InsertOperator: the new id is a parameter, which runs take to be unused.
- Diff.DiffRoundTrip: for plain target names; quoted and tab-terminated forms of git are not rendered.
  A hunk whose removed and added lines together are more than 2^63-1 is not rendered.
- Profile.ParseProfile: blocks with the same start and different ends are only claimed to be there, not
  in which order.
- GoMod.FileRoundTrip: bare paths without quotes or double slashes, double-quoted ones without
  backslashes, versions without quotes, and a space in front of the opening parenthesis of a block.
