# Pipewright: verified models of its bundles, activity stream, plugins, navigation and sign-in

Dafny models of six parts of Pipewright whose promises span many steps, with proofs of those
promises over every input, every run and every reachable state. `dafny verify dfyconfig.toml`
checks the whole project. Where the code is a loop over fields, the model is a class or method with
the same fields and loop, proved against a function; what the repository promises is then proved
about that function.

**Project bundles** (`Bundle*.dfy`). Export replaces ids in arbitrary JSON by name references;
import plans (each reference is chosen, matched, made or missing; each item is made or skipped; a
"made" reference whose item is skipped is demoted) and then makes the planned items in order,
turning names back into ids. `BundleRefs`, `BundlePlan` and `BundleImport` are the code;
`BundleRoundTrip`, `BundleRefsTheory`, `BundlePlanTheory`, `BundleImportTheory` and `BundleTwice`
are what it means, `BundlePlanExact`, `BundleItems` and `BundleVerdicts` say a plan from the request
alone, down to an item's members, and `BundleWitnesses` and `BundleContracts` hold the bundles on
which the code does less than its words. `BundleReexport` takes what an import made back out again.
The central statements are exact: a tree goes there and arrives as its own rewiring if and only if
it holds no dictionary that looks like a reference; an item is planned, and a reference ends
missing, under a condition on the request; a name reference leads to an id if and only if it was
matched, chosen or made before it is needed; which items a second import plans again; and what
exports again, after any import, as the bundle had it.

**The activity stream** (`Activity.dfy`, `ActivityReading.dfy`). Every feed is read only as far as
the page needs, yet the page is the slice of the full merged stream; walking the pages gives the
stream; and an item is skipped exactly when a happening takes more away above it than it stands
beyond the next page, so never while things are only added.

**Plugins** (`Plugins.dfy`, `PluginRuns.dfy`, `PluginHost.dfy`). Loading is transactional over shared
registries with undo steps. `Host` carries the invariant of every reachable state: what people see is
the base and, beside it, exactly what the loaded plugins added; `PluginRuns` says what a whole run of
loads, and unloading after it, leaves in every registry.

**Navigation** (`Paths.dfy`, `Navigation.dfy`, `Addresses.dfy`, `Locations.dfy`). The glob matcher's
loop, the best-match search, said on tabs and patterns, and its inversion of `tabHref`, for any tree
of areas and tabs.

**Sign-in and directory sync** (`SignIn.dfy`, `SignInTheory.dfy`, `DirectorySync.dfy`,
`AccountHistory.dfy`). Two state machines over one user table: one-time states with a lifetime,
just-in-time accounts, the sweep of accounts that left the directory, and what any run of them makes
of each field of each account.

**Three small algorithms** (`Recent.dfy`, `ClientNames.dfy`, `DatasetGroups.dfy`; sorting in
`Sorting.dfy`).

Text rules (case folding, stripping, UUID parsing and printing, `\w`), the clock, random states,
the identity provider, the rows a query returns and the outcome of each create function are
parameters; every theorem holds for any of them, under the laws it names (`PrintsIds`, `ReadsBack`).

## Where the code says less than its words

- **Demotion is one pass** (`bundles.py:363-368`). A reference to something the bundle skips becomes
  missing after the items are judged, so an item may be planned although it needs something missing.
  `BundleWitnesses.CreatedThoughMissing` is a bundle that shows it, and
  `BundlePlanExact.CreateIsJustified` says from the request when it happens.
- **Names already taken are read once** (`bundles.py:294-297`): two items of one name may both be
  planned (`BundleWitnesses.TwinsArePlanned`; exactly when, `BundlePlanExact.BothPlannedUnderOneName`).
- **Columns are checked in what is known by then** (`bundles.py:397-399`): an item whose dataset is
  only referred to later is not checked against it (`BundleWitnesses.CheckedTooEarly`; exactly when,
  `BundlePlanExact.TwoPass`), and a second import may plan what the first one skipped
  (`BundleWitnesses.MadeTheSecondTime`). Exported bundles never meet this.
- **Only one of several things of a name can be chosen** (`bundles.py:292-293` and `316-318`). The
  preview offers every dataset (`_option_lists`, `bundles.py:565-570`), and older projects list a name
  several times (`dataset-origin.ts:5-6`), yet a choice of any but the last listed of its name ends the
  import as "not in this project" (`BundleWitnesses.OfferedYetRefused`; exactly when,
  `BundlePlanExact.PlanIsOk`).
- **A contract is skipped by name, not by dataset** (`bundles.py:16-17` against `335-341`): mapped to a
  dataset of another name that already has a contract, it is planned by the first import
  (`BundleContracts.PlannedOverSales`; exactly when, `BundleContracts.PlannedOverAContract`), and once
  made over such a dataset it is planned again by the second (`BundleContracts.PlannedTwice`; exactly
  when, `BundleTwice.ImportAgain`). Called as its dataset is, it never is.
- **A refused plugin may leave a trace** (`plugins.py:156-171`). Its tool puts a handler among the
  extension handlers as its specification is built (`tools/local.py:96-130` and
  `ir/pandas_backend.py:72-75` of service-transformations), before its name is checked
  (`plugin_host.py:74-82`), and no undo step has been recorded yet. What people see is always
  restored; `Plugins.RefusedLeavesNothing` gives the exact condition under which everything is, and
  `PluginRuns.RefusedYetFelt` a plugin for which it is not.
- **The stream's items may disappear**: live feeds are "shown while they last", and then a page
  boundary can pass over an item (`ActivityReading.TakingAwaySkips`; exactly when,
  `ActivityReading.SkippedExactlyWhen`), which `activity.py:18-22` rules out only for items that are
  added.
- **A returning account is not reactivated at sign-in** (`scim_sync.py:16-18` against
  `sso_flow.py:193-194`): `SignInTheory.LocalsAreNeverSwept` shows that an inactive account stays
  inactive in every run.
- **The sync keeps an admin; a sign-in may not**: an explicit group role changes an existing
  account's role (`sso_flow.py:201-202`), `SignInTheory.LastAdminLost` says exactly when that leaves
  nobody, and `SignInTheory.LastAdminIsDemoted` is a callback that does.

## Model

| member | source | states |
|---|---|---|
| BundleRoundTrip.RoundTrip | apps/api-gateway/src/api_gateway/bundles.py:130-154 | For every tree, resolving the exported tree gives the tree with each id under a reference key replaced by the target's id of the same-named thing (unknown: null, or dropped from a list) and nothing else changed, if and only if no dictionary that survives the export holds both "$ref" and "name". |
| BundleRoundTrip.RoundTripUnder | apps/api-gateway/src/api_gateway/bundles.py:145-150 | The same for one value under its key: reference keys, list reference keys, and any other key. |
| BundleRoundTrip.HomeIsFound | apps/api-gateway/src/api_gateway/bundles.py:292-293 | A project finds each of its things by kind and case-folded name if and only if no two things of a kind share a case-folded name. |
| BundleRoundTrip.HomeAgain | apps/api-gateway/src/api_gateway/bundles.py:428-446 | With such names, every tree imported where it came from is unchanged if and only if no surviving dictionary looks like a reference and every id under a reference key is the printed id of a thing the project has. |
| BundleRoundTrip.AtHomeIsPrinted | apps/api-gateway/src/api_gateway/bundles.py:130-139 | An id is at home exactly when some id of the project's things of its kind is printed so. |
| BundleRefsTheory.ResolveLooksUpOnlyRefs | apps/api-gateway/src/api_gateway/bundles.py:273-283 | `resolve` depends on the look-up only at the references `_refs_in` collects. |
| BundleRefsTheory.Reexport | apps/api-gateway/src/api_gateway/bundles.py:130-154 | For every tree, export, import elsewhere and export there gives the same bundle text if and only if no surviving dictionary looks like a reference and every reference was found and is spelled the same there. |
| BundleExport.Exporter.RefOf | apps/api-gateway/src/api_gateway/bundles.py:130-139 | For every kind and value: the reference to a name exactly when the value reads as the id of a thing of that kind with that name, null exactly when there is none; `used` grows by exactly that name if the kind is external. |
| BundleRefs.RefIsExact | apps/api-gateway/src/api_gateway/bundles.py:130-139 | The same of the function the theorems on trees speak of. |
| BundleExport.UsedIsCalled | apps/api-gateway/src/api_gateway/bundles.py:137-138 | What one id asks of the target is the name of its thing, for external kinds and for no others. |
| BundleExport.Exporter.Export | apps/api-gateway/src/api_gateway/bundles.py:141-154 | The walk returns the exported tree and grows `used` by exactly what its ids ask of the target. |
| BundleExport.NeedsOfAny | apps/api-gateway/src/api_gateway/bundles.py:232-233 | For every tree, the external references an import will meet are exactly what its ids outside lookalikes ask for, together with what the lookalikes claim; so without lookalikes the bundle's list of needs is exact. |
| BundlePlanExact.PlanIsOk | apps/api-gateway/src/api_gateway/bundles.py:264-318 | Planning succeeds if and only if the format is "pipewright.bundle", the version is a number up to 1, and every choice made for a first spelling reads as the id of the last listed thing of its kind with its name, but for case. |
| BundlePlanExact.UnreadableIsRefused | apps/api-gateway/src/api_gateway/bundles.py:264-270 | Another format, and then a newer or missing version, is refused as such before anything is looked up. |
| BundlePlanExact.KnownIds | apps/api-gateway/src/api_gateway/bundles.py:292-293 | The ids a choice is accepted for: exactly those of the things listed last under their folded names. |
| BundleWitnesses.OfferedYetRefused | apps/api-gateway/src/api_gateway/bundles.py:316-318 | Two datasets called Orders, the first of them chosen: planning ends, saying that it is not in the project. |
| BundlePlanExact.TwoPass | apps/api-gateway/src/api_gateway/bundles.py:328-362 | For every list of items, the interleaved loop is two independent passes, classify every reference by its first spelling and then judge each item against all of them, if and only if no item that is otherwise provided for lacks a column of a dataset first referred to by a later item. |
| BundlePlanExact.TwoPassOfPlain | apps/api-gateway/src/api_gateway/bundles.py:328-362 | For an exported bundle, whose items refer to their datasets themselves, it always is. |
| BundleWitnesses.CheckedTooEarly | apps/api-gateway/src/api_gateway/bundles.py:354-361 | Two metrics of which one is planned in one order and skipped for a missing column in the other. |
| BundlePlan.JudgeStable | apps/api-gateway/src/api_gateway/bundles.py:346-362 | A larger set of known references judges an item alike, if and only if it is not the first to know a dataset that lacks a column of it. |
| BundlePlan.IndexGrows | apps/api-gateway/src/api_gateway/bundles.py:306-326 | Once classified, a reference keeps its classification while planning goes on. |
| BundlePlanTheory.ByNameIsListed | apps/api-gateway/src/api_gateway/bundles.py:292-293 | A name is known to the target exactly when a listed thing has it but for case, and leads to such a thing. |
| BundlePlanTheory.ReferencesAreTrue | apps/api-gateway/src/api_gateway/bundles.py:306-326 | Every reference in a finished plan is what its status says of mapping, target and bundle; one still "made" has a planned create of its section and name; and it is missing if and only if nothing was chosen, the target has nothing so called, and the bundle has no such item that is planned. |
| BundlePlanTheory.ItemsFollowBundle | apps/api-gateway/src/api_gateway/bundles.py:328-333 | The plan has one item for each bundle item, section by section in SECTIONS order. |
| BundlePlanTheory.EntriesAre | apps/api-gateway/src/api_gateway/bundles.py:328-330 | The items looked at are those of metrics, recipes, checks, contracts, charts, dashboards, workflows and schedules, in this order and each section's in its own. |
| BundlePlanExact.CreateIsJustified | apps/api-gateway/src/api_gateway/bundles.py:335-368 | Said from the request alone: a planned item can be made, all its references are in the plan, and outside workflows one of them ends missing if and only if nothing was chosen for it or is there, and every bundle item so called is itself unnamed, not new, without something it refers to, or without its columns. |
| BundlePlanExact.CreateIsExact | apps/api-gateway/src/api_gateway/bundles.py:330-362 | Said from the request alone and for every bundle: an item is planned to be made if and only if it is named, new to the target, outside workflows refers only to what was chosen, is there or the bundle names, and every column its members name is in its dataset, as far as the dataset's columns are known and it has been referred to by then. |
| BundleItems.ColumnsAreRead | apps/api-gateway/src/api_gateway/bundles.py:372-388 | The columns an item is checked for, on its members and for every section: a metric's column, dimensions and filters; a chart query's dimensions, measures and filters; a check's column and columns; never an empty one or `*`. |
| BundleVerdicts.VerdictIsExact | apps/api-gateway/src/api_gateway/bundles.py:328-362 | Every item of a plan, with its name and reason, from the request: unnamed, already there, short of its first reference not provided (named as first spelled), short of exactly the columns it reads and its dataset lacks, or made as it stands. |
| BundleItems.NameIsSaid | apps/api-gateway/src/api_gateway/bundles.py:331-331 | An item's name is what stands under "name", stripped; what counts as nothing is no name. |
| BundleItems.ConsideredIsNew | apps/api-gateway/src/api_gateway/bundles.py:331-344 | References are looked up for exactly the items that are named and whose name no thing of the section has but for case. |
| BundleItems.BundleHasName | apps/api-gateway/src/api_gateway/bundles.py:299-302 | A name is the bundle's own when an item of the four sections others refer to is so spelled, unstripped, but for case. |
| BundlePlanExact.DatasetIsSaid | apps/api-gateway/src/api_gateway/bundles.py:391-399 | An item is checked against the dataset named by the dictionary under "dataset", in three sections only. |
| BundlePlanExact.StatusIsExact | apps/api-gateway/src/api_gateway/bundles.py:306-326 | The references of a finished plan are exactly those met, each with the id and the status its first spelling deserves: chosen, else matched, else made if the bundle names it and some item so called can be made, else missing. |
| BundlePlanExact.JudgedAtTheEnd | apps/api-gateway/src/api_gateway/bundles.py:328-362 | Although items are judged in turn while references are still being met, an item is judged as if all were known if and only if its dataset is not met too late. |
| BundlePlanExact.BothPlannedUnderOneName | apps/api-gateway/src/api_gateway/bundles.py:294-297 | Two items of one section are both planned under one name if and only if each can be made and their names are the same but for case: names taken are not updated while planning. |
| BundlePlanExact.TwinsArePlannedAlike | apps/api-gateway/src/api_gateway/bundles.py:330-362 | The same item twice in a bundle gets the same verdict twice, if and only if its dataset is met too late for both or for neither. |
| BundleWitnesses.TwinsArePlanned | apps/api-gateway/src/api_gateway/bundles.py:294-297 | A bundle with two different metrics of one name, both planned. |
| BundleWitnesses.CreatedThoughMissing | apps/api-gateway/src/api_gateway/bundles.py:363-368 | A bundle whose dashboard is planned although the metric it shows ends up missing. |
| BundleImport.Planner.ReferenceTo | apps/api-gateway/src/api_gateway/bundles.py:306-326 | Classifies once per kind and folded name, remembers it, and changes nothing on an error. |
| BundleImport.Planner.PlanItem | apps/api-gateway/src/api_gateway/bundles.py:330-362 | One turn of the loop: the new references and items, or the error raised. |
| BundleImport.Planner.DemoteSkipped | apps/api-gateway/src/api_gateway/bundles.py:363-368 | In whatever order references are visited, exactly the "made" ones without a planned create become missing. |
| BundleImport.Planner.Run | apps/api-gateway/src/api_gateway/bundles.py:286-369 | The planner's loops over its two fields return the specified plan, or the first error in bundle order. |
| BundleImport.Importer.Run | apps/api-gateway/src/api_gateway/bundles.py:448-460 | The loop that makes items leaves the specified items, made ids and report, and changes no reference. |
| BundleImportTheory.ApplyAccounts | apps/api-gateway/src/api_gateway/bundles.py:448-460 | At every moment of an import: items not reached are as planned, items reached differ exactly where a create was refused, and the report is the creates that succeeded, in order. |
| BundleImportTheory.ReportAddsUp | apps/api-gateway/src/api_gateway/bundles.py:587-588 | Creates and skips add up to the bundle's items before and after, and as many things are reported made as items stayed "create". |
| BundleImportTheory.LeadsSomewhere | apps/api-gateway/src/api_gateway/bundles.py:432-436 | Every reference of a planned create is in the plan, and resolves when its user is made if and only if it is chosen or matched or an earlier item made it. |
| BundleImportTheory.EarlierSectionsResolve | apps/api-gateway/src/api_gateway/bundles.py:69-74 | If every create succeeds and the reference is to an earlier section, it resolves to an id unless its final status is missing: SECTIONS is a sound dependency order. |
| BundlePlan.NeededComesEarlier | apps/api-gateway/src/api_gateway/bundles.py:69-74 | What an exported item refers to outside its free trees belongs to an earlier section or to none, and so does all that workflows and schedules can refer to. |
| BundleImportTheory.ExportedReferenceResolves | apps/api-gateway/src/api_gateway/bundles.py:69-74 | So if every create succeeds, such a reference resolves to an id unless its final status is missing. |
| BundlePlan.KindsAreSorted | apps/api-gateway/src/api_gateway/bundles.py:47-74 | Ids name things of exactly the kinds references are matched for; external are those without a section, and the others have one that items refer to. |
| BundleImportTheory.NothingUnknownIsResolved | apps/api-gateway/src/api_gateway/bundles.py:432-434 | The "unknown reference" branch is never taken in an import: a planned create resolves alike whatever that branch gives. |
| BundleImportTheory.ExportedPartMoves | apps/api-gateway/src/api_gateway/bundles.py:428-446 | A tree exported into an item reaches its create function as its rewiring with what the plan and the import have found so far. |
| BundleTwice.ReplanReferences | apps/api-gateway/src/api_gateway/bundles.py:304-326 | For an exported bundle, after an import in which every create succeeded, each reference the second plan meets has the status and id the first plan left it, except that what was made is now matched. |
| BundleTwice.ImportAgain | apps/api-gateway/src/api_gateway/bundles.py:286-369 | After such an import of any bundle, the same bundle and mapping can be planned again, and which items are planned is said from the first request and import: item i is, if and only if it is a contract that was made and no contract made is over a dataset of its name; or it is still new, all it refers to was provided, it lacked a column of its dataset, and no item up to it that is still new refers to that dataset. |
| BundleTwice.DatasetReadIsPayload | apps/api-gateway/src/api_gateway/bundles.py:495-505 | The dataset a contract is made over, and so the name it is listed under, is the id that stands under "dataset" once the item is resolved, whether the bundle wrote an id or a reference. |
| BundleTwice.StoredNameIsExact | apps/api-gateway/src/api_gateway/bundles.py:103-115 | A contract made is listed under the name of the dataset it was made over, if the project has it; anything else under its item's name. |
| BundleTwice.NothingIsMadeTwice | apps/api-gateway/src/api_gateway/bundles.py:286-369 | Importing an exported bundle is idempotent: if every contract made is over a dataset of its own name, the second plan makes nothing. |
| BundleReexport.SpelledIsSame | apps/api-gateway/src/api_gateway/bundles.py:103-109 | After any import, a reference of a made item is found under its own spelling if and only if the target's thing it leads to, or else the last thing made before it under that name, is called exactly so. |
| BundleReexport.PartComesBack | apps/api-gateway/src/api_gateway/bundles.py:130-154 | After any import, whichever creates were refused, an exported part of a planned item exports from the new project as the bundle has it, if and only if its tree had nothing that looks like a reference and every reference in it is spelled as the thing it leads to is called. |
| BundleReexport.ReferenceComesBack | apps/api-gateway/src/api_gateway/bundles.py:130-139 | The same for a reference that stands by itself in an item, as to its dataset. |
| BundleContracts.PlannedTwice | apps/api-gateway/src/api_gateway/bundles.py:335-341 | A contract made over a dataset of another name, planned again by the second import. |
| BundleWitnesses.MadeTheSecondTime | apps/api-gateway/src/api_gateway/bundles.py:397-399 | A metric the first import skips for a missing column and the second plans. |
| BundleContracts.PlannedOverAContract | apps/api-gateway/src/api_gateway/bundles.py:16-17 | A contract planned over a dataset that already has one can be made and a contract is listed under the dataset's own name; it is so planned whenever that holds and no other dataset has the name; and never when it is called as its dataset is. |
| BundleContracts.DatasetOfIsRead | apps/api-gateway/src/api_gateway/bundles.py:495-505 | That dataset, said from the request, is the one the contract's create function reads, whatever the import has made by then. |
| BundleContracts.UnmappedIsSkipped | apps/api-gateway/src/api_gateway/bundles.py:16-17 | A contract called as the dataset it refers to, for which nothing was chosen, is skipped when that dataset already has one, whether or not another item refers to the dataset. |
| BundleContracts.PlannedOverSales | apps/api-gateway/src/api_gateway/bundles.py:335-341 | A contract mapped to a dataset that already has one, planned by the first import. |
| Activity.NewerIsAnOrder | apps/api-gateway/src/api_gateway/activity.py:460-462 | Time and then id is a strict total order on items with different ids. |
| Activity.ReadKinds | apps/api-gateway/src/api_gateway/activity.py:459-459 | The items read are the chosen kinds' feeds, each cut to what is wanted, kind by kind. |
| Activity.PageFromCuts | apps/api-gateway/src/api_gateway/activity.py:456-464 | Cutting each feed to one more than the page's end changes neither the page nor whether more follows, against merging the feeds whole. |
| Activity.ProjectActivity | apps/api-gateway/src/api_gateway/activity.py:441-465 | The method that reads only cuts answers with the clamped slice of the full stream of the chosen kinds, later moments first and at one moment the greater id first, and a next offset exactly when the stream goes on and MAX_OFFSET is not reached. |
| Activity.PageIsNewestFirst | apps/api-gateway/src/api_gateway/activity.py:460-462 | On moments and ids: the stream and every page of it are newest first. |
| Activity.PageIsExact | apps/api-gateway/src/api_gateway/activity.py:455-465 | A page in numbers: from the offset, between 0 and 2000, as many items as asked for, between 1 and 100, as far as the stream goes; and when there is a next page. |
| Activity.RefusedForKinds | apps/api-gateway/src/api_gateway/activity.py:451-454 | Refused exactly for naming kinds other than the seven. |
| Activity.StreamHasAll | apps/api-gateway/src/api_gateway/activity.py:458-459 | The stream has exactly what the feeds of the kinds asked for have; of every kind, if none is named. |
| Activity.NothingIsLater | apps/api-gateway/src/api_gateway/activity.py:458-463 | Nothing of a kind asked for, in any feed, is later than the first item of the first page. |
| Activity.TextBeforeMeans | apps/api-gateway/src/api_gateway/activity.py:462-462 | Ids compare as text: before their continuations, and by the first character that differs. |
| Activity.NeverEarlier | apps/api-gateway/src/api_gateway/activity.py:18-22 | An item stands no earlier in the merged stream than in its own feed. |
| ActivityReading.WalkIsStream | apps/api-gateway/src/api_gateway/activity.py:455-465 | Following next_offset from 0 with any limit ends, and its pages joined are the first min(N, the first multiple of the limit at or past MAX_OFFSET) items of the stream. |
| ActivityReading.WalkIsNewestFirst | apps/api-gateway/src/api_gateway/activity.py:460-465 | The pages joined go back in time. |
| ActivityReading.HappeningIsExact | apps/api-gateway/src/api_gateway/activity.py:18-22 | What is not skipped is still not skipped if and only if the happening does not pass it over: does not take it away, nor more above it than it stands beyond the next offset plus what comes above it. |
| ActivityReading.SkippedExactlyWhen | apps/api-gateway/src/api_gateway/activity.py:18-22 | Over any run of reads of any sizes, additions and removals, an item is at every moment shown or at or beyond the next offset if and only if it was at the start and no happening passes it over. |
| ActivityReading.ShownWhenPagingEnds | apps/api-gateway/src/api_gateway/activity.py:463-465 | An item never skipped has been shown when the pages end before MAX_OFFSET. |
| ActivityReading.NothingIsSkipped | apps/api-gateway/src/api_gateway/activity.py:18-22 | Where things are only added, nothing of what is not skipped is passed over: each given item is shown or at or beyond the next offset, and all are shown when the pages end before MAX_OFFSET. |
| ActivityReading.ReaderFromTheTop | apps/api-gateway/src/api_gateway/activity.py:18-22 | The same for someone reading from the top and everything that was there at the start. |
| ActivityReading.TakingAwaySkips | apps/api-gateway/src/api_gateway/activity.py:384-427 | When an item stops lasting between two pages, the item after the boundary is never shown. |
| Sorting.SortSorts | apps/api-gateway/src/api_gateway/activity.py:462-462 | The sort gives the same items, in order, for any total preorder. |
| Sorting.SortIsStable | apps/web/src/lib/dataset-origin.ts:78-78 | Items the order does not tell apart keep their order. |
| Plugins.AddAllIs | apps/api-gateway/src/api_gateway/plugins.py:191-253 | Adding stops at the first contribution refused: everything before it is in, with its undo steps, and of it exactly what its refusal came too late for. |
| Plugins.UndoAllTakesOut | apps/api-gateway/src/api_gateway/plugins.py:162-165 | Undo steps run backwards take out exactly the entries they name. |
| Plugins.PutAndTakeBack | apps/api-gateway/src/api_gateway/plugins.py:119-127 | Adding under new names and taking back restores what people see, and everything if and only if no entry was taken. |
| Plugins.RefusedLeavesNothing | apps/api-gateway/src/api_gateway/plugins.py:156-171 | A refusal at any point restores what people see; and restores everything if and only if nothing added took an entry already there behind the scenes, and the one refused before it was added is not a tool already built, unless the very handler was there already. |
| PluginHost.EnabledNames | apps/api-gateway/src/api_gateway/plugins.py:64-69 | The setting's parts between commas, stripped, empty ones dropped, each once, in the order of where each is given first. |
| PluginRuns.AfterLoad | apps/api-gateway/src/api_gateway/plugins.py:172-173 | Loading a plugin keeps the state consistent: the base and, disjoint, all that loaded plugins added. |
| PluginRuns.AfterRefusal | apps/api-gateway/src/api_gateway/plugins.py:162-171 | Refusing a plugin keeps the state consistent and shows people nothing. |
| PluginRuns.AfterUnload | apps/api-gateway/src/api_gateway/plugins.py:119-127 | Taking back all steps leaves what people saw before any plugin. |
| PluginHost.Host.Add | apps/api-gateway/src/api_gateway/plugins.py:191-253 | One loop over contributions, adding to the registries in place and recording steps up to the first refusal or exception. |
| PluginHost.Host.Undo | apps/api-gateway/src/api_gateway/plugins.py:163-164 | The reversed loop takes out exactly the entries its steps name. |
| PluginHost.Host.AddPlugin | apps/api-gateway/src/api_gateway/plugins.py:156-161 | The four loops in a row are one loop over all the plugin brings. |
| PluginRuns.InstalledIs | apps/api-gateway/src/api_gateway/plugins.py:156-173 | In a consistent state, installing adds and records everything, or leaves what people see and the records as they were; which of the two is decided by the first refusal; and the state stays consistent. |
| Plugins.AcceptedExactly | apps/api-gateway/src/api_gateway/plugins.py:156-171 | A plugin that brings nothing twice is accepted if and only if everything it brings builds, passes its checks, and has a name that was free before: in its own registry, and for a function also among aliases and keywords. |
| PluginRuns.AcceptedMeans | apps/api-gateway/src/api_gateway/plugins.py:130-173 | And so is loaded if and only if it also imports, is itself and passes the SDK's checks. |
| PluginHost.OthersAreListed | apps/api-gateway/src/api_gateway/plugins.py:99-102 | Listed as not enabled are exactly the plugins found and not enabled. |
| Plugins.AddedIsThere | services/service-transformations/src/service_transformations/plugin_host.py:51-93 | Once added, each thing is what every registry of its kind has under its name, tools and functions with their handlers, and nothing else has changed. |
| PluginHost.Host.Install | apps/api-gateway/src/api_gateway/plugins.py:156-173 | The four loops, and the undo or the record after them, leave exactly the specified books. |
| PluginHost.Host.SdkCheck | apps/api-gateway/src/api_gateway/plugins.py:148-155 | A plugin passes exactly when its other checks do and it adds nothing twice. |
| PluginHost.Host.LoadOne | apps/api-gateway/src/api_gateway/plugins.py:130-178 | In every reachable state: loaded exactly when it imports, is itself, passes the SDK's checks and is accepted whole; otherwise refused with what people see, and the records, as before. |
| PluginHost.Host.LoadEnabled | apps/api-gateway/src/api_gateway/plugins.py:89-116 | Once per process; lists what is found and not enabled, then answers each enabled name in order; registries, records and whether anything behind the scenes was touched are exactly what loading each in turn leaves. |
| PluginHost.Host.LoadEach | apps/api-gateway/src/api_gateway/plugins.py:103-113 | The loop over enabled names: the same, for the answers it appends. |
| PluginRuns.AnswersAccount | apps/api-gateway/src/api_gateway/plugins.py:89-116 | What is added and recorded by a load is exactly what the plugins answered "loaded" bring, in load order. |
| PluginRuns.LoadThenUnload | apps/api-gateway/src/api_gateway/plugins.py:119-127 | For any enabled plugins and any starting registries, loading and unloading gives back what people saw, and every registry if nothing any of them tried shared an entry with what was there. |
| PluginRuns.ApartIsRestored | apps/api-gateway/src/api_gateway/plugins.py:119-127 | Every registry is given back, those behind the scenes included, when each enabled plugin brings only names new to the starting registries and to each other, and no tool that raises once built. |
| PluginHost.Host.UnloadAll | apps/api-gateway/src/api_gateway/plugins.py:119-127 | Although plugins are undone in load order, what people see is the base again, and every registry is if nothing tried had shared an entry. |
| PluginRuns.RefusedYetFelt | services/service-transformations/src/service_transformations/plugin_host.py:51-93 | A plugin named as a catalogue family is refused for its tool's name and leaves the catalogue's tool with its own handler. |
| Navigation.MatchesPattern | apps/web/src/lib/navigation.ts:617-627 | The index loop decides the recursive meaning of a pattern. |
| Navigation.MeansLinesUp | apps/web/src/lib/navigation.ts:616-627 | That meaning, position by position: `*` is one segment, a trailing `**` one or more, and `**` elsewhere matches nothing. |
| Navigation.FindLocation | apps/web/src/lib/navigation.ts:643-676 | The nested loops give the specified location, whose meaning is `LocateIsExact`. |
| Locations.LocateIsExact | apps/web/src/lib/navigation.ts:643-676 | On areas, tabs and patterns: an address is located if and only if some tab of its scope has a pattern that fits, its path or an `also`; the answer is the first tab with a fitting pattern of the greatest weight, two for each literal segment and one for the tab's own path, and a tab's root exactly when that pattern is its path. |
| Locations.ReadIsParts | apps/web/src/lib/navigation.ts:644-655 | An address is read by its segments before the query: scope, project and what patterns are held against. |
| Locations.AllCandidates | apps/web/src/lib/navigation.ts:658-661 | Every pattern of every tab of the scope is tried, and nothing else. |
| Locations.QueryDoesNotMatter | apps/web/src/lib/navigation.ts:644-644 | Nothing after a question mark changes what is located. |
| Addresses.BestIsFirstHeaviest | apps/web/src/lib/navigation.ts:656-674 | The best match is the first of the heaviest that fit, and there is none only if nothing fits. |
| Addresses.TabIsFound | apps/web/src/lib/navigation.ts:656-675 | At a literal tab's own path some tab's root is found, and it is this tab if and only if no earlier tab of the scope has the same path, whatever `also` patterns there are. |
| Addresses.ProjectAddressInverts | apps/web/src/lib/navigation.ts:686-690 | For any tree, `locate` of a project tab's address gives that area, tab, project and root if and only if no earlier tab has the same path. |
| Addresses.GlobalAddressInverts | apps/web/src/lib/navigation.ts:686-690 | For a global tab the same, if and only if also its path does not begin as a project's address does. |
| DirectorySync.UserTable.DeactivateAbsent | apps/api-gateway/src/api_gateway/scim_sync.py:47-110 | The loop decides over the absent accounts in query order; the table changes by exactly those deactivated, and not at all in a dry run. |
| DirectorySync.DeactivatedAreGone | apps/api-gateway/src/api_gateway/scim_sync.py:63-84 | A sync deactivates exactly the active directory-managed accounts that no name of the snapshot is, blanks and case aside; save one admin, when every active admin is among them: the last in the query's order. |
| DirectorySync.SyncIsExact | apps/api-gateway/src/api_gateway/scim_sync.py:86-93 | The table after a sync, account by account: those are inactive and their token version is one more, and nothing else has changed. |
| DirectorySync.AbsentAreAbsent | apps/api-gateway/src/api_gateway/scim_sync.py:63-68 | The accounts considered are exactly the active directory-managed ones not in the snapshot, once each. |
| DirectorySync.DecidePartitions | apps/api-gateway/src/api_gateway/scim_sync.py:73-84 | Deactivated and skipped partition the absent accounts. |
| DirectorySync.RunIsSafe | apps/api-gateway/src/api_gateway/scim_sync.py:12-14 | A run skips at most one account, only when every active admin is absent, and leaves an active admin if there was one. |
| DirectorySync.SafeIsFull | apps/api-gateway/src/api_gateway/scim_sync.py:73-84 | No other choice of absent accounts that leaves an admin deactivates more. |
| DirectorySync.RunningAgainDoesNothing | apps/api-gateway/src/api_gateway/scim_sync.py:47-110 | Repeating a run deactivates nobody and skips the same account. |
| SignIn.Gateway.BeginLogin | apps/api-gateway/src/api_gateway/sso_flow.py:101-128 | Stores one state with its lifetime and a path that begins with a slash, or nothing. |
| SignIn.Gateway.CompleteLogin | apps/api-gateway/src/api_gateway/sso_flow.py:131-184 | Checks and uses up the state before anything else, then signs in or refuses, in place. |
| SignIn.Gateway.ProvisionUser | apps/api-gateway/src/api_gateway/sso_flow.py:187-227 | In place: refuses an inactive account, refreshes an active one, or makes one if that is allowed, as `StepIsExact` says field by field; nothing changes on a refusal. |
| AccountHistory.StepIsExact | apps/api-gateway/src/api_gateway/sso_flow.py:187-227 | The user table after any step, field by field: an account is added exactly when a vouched-for newcomer arrives and accounts may be made, with the username, role, email and display name vouched for, active, directory-managed and at token version 0; an account's role changes exactly when it signs in with a role other than the default, and to that; email and display name change exactly to non-empty ones told; only a sync deactivates, and it voids the sessions. |
| AccountHistory.RolesAreVouchedFor | apps/api-gateway/src/api_gateway/sso_flow.py:201-222 | Over any run, every account has the role it had at the start or one some callback vouched for under its name; every account added was vouched for. |
| AccountHistory.AdminsAreVouchedFor | apps/api-gateway/src/api_gateway/sso_flow.py:201-222 | Over any run, nobody becomes an active admin but by a callback that vouches for them as admin. |
| AccountHistory.SessionsEndOnce | apps/api-gateway/src/api_gateway/scim_sync.py:86-90 | Over any run, an account's token version grows exactly when it is deactivated, by one and once. |
| AccountHistory.SignedInExactly | apps/api-gateway/src/api_gateway/sso_flow.py:131-184 | In any run, a callback signs an account in at a path if and only if its sign-in was begun here for the path, has not come back and is at most ten minutes old, and the provider vouches for an active account or for a newcomer where accounts may be made. |
| AccountHistory.BegunExactly | apps/api-gateway/src/api_gateway/sso_flow.py:101-128 | In any run with sign-on set up, beginning a sign-in keeps exactly its new state, when the provider answers, and nothing otherwise. |
| AccountHistory.NothingUnlessConfigured | apps/api-gateway/src/api_gateway/sso_flow.py:111-112 | Without sign-on set up, nothing is begun or kept and nobody is signed in, over any run. |
| SignIn.Gateway.SweepExpiredStates | apps/api-gateway/src/api_gateway/sso_flow.py:230-238 | Leaves exactly the states that have not expired, as they were, and counts those that are gone. |
| SignInTheory.StateCheckIsExact | apps/api-gateway/src/api_gateway/sso_flow.py:148-160 | In every run, a callback passes the state check if and only if its state was begun, not called back since, and no longer than STATE_TTL ago. |
| SignInTheory.StatePassesOnce | apps/api-gateway/src/api_gateway/sso_flow.py:158-160 | A state passes the check at most once in any run. |
| SignInTheory.ContinuesWhatWasBegun | apps/api-gateway/src/api_gateway/sso_flow.py:118-125 | In every run, a sign-in that comes back continues with the verifier and nonce it was begun with and ends at the path it was begun for, which begins with a slash. |
| SignInTheory.SweepsUnnoticed | apps/api-gateway/src/api_gateway/sso_flow.py:230-238 | A run and the same run without its sweeps answer alike everywhere and end with the same accounts. |
| SignInTheory.SweepsMayGoAnywhere | apps/api-gateway/src/api_gateway/sso_flow.py:230-238 | Two runs that differ only in where they sweep answer alike. |
| SignInTheory.StepKeepsLocals | apps/api-gateway/src/api_gateway/scim_sync.py:63-68 | One step adds at most one account, directory-managed and by a callback; no account changes its source or name, and only a sync, of a directory-managed account, deactivates. |
| SignInTheory.LocalsAreNeverSwept | apps/api-gateway/src/api_gateway/sso_flow.py:220-222 | Over any interleaving of sign-ins and syncs, a local account stays local and as active as it was, every account added is directory-managed, and an inactive one stays inactive. |
| SignInTheory.LastAdminLost | apps/api-gateway/src/api_gateway/sso_flow.py:199-202 | A step leaves no active admin if and only if it is a callback that signs in the only one with another explicit role. |
| SignInTheory.LastAdminIsDemoted | apps/api-gateway/src/api_gateway/sso_flow.py:201-202 | A run of one sign-in, begun and called back within its lifetime, after which there is no active admin. |
| SignInTheory.SyncsKeepAnAdmin | apps/api-gateway/src/api_gateway/scim_sync.py:12-14 | Any sequence of syncs with any snapshots leaves an active admin if there was one. |
| Recent.EarlyCutLosesNothing | apps/web/src/lib/recent.ts:33-36 | Cutting at every visit gives the first eight of all visits, newest first, each address where it first appears. |
| Recent.ListIsLastVisits | apps/web/src/lib/recent.ts:33-36 | Over any visits from an empty list: as many items as addresses visited, eight at most; and at each place the last visit to an address since which just as many others were visited. |
| Recent.FirstOfEachIsOnePerAddress | apps/web/src/lib/recent.ts:33-34 | That list has every address visited, once. |
| Recent.OneMoreIsEnough | apps/web/src/lib/recent.ts:34-36 | Removing one address from a cut list loses nothing within one item fewer. |
| Recent.RecentStore.RecordAll | apps/web/src/lib/recent.ts:38-44 | Recording visits one by one, each stored or not, leaves the list folded over those that were stored. |
| ClientNames.FreeName | clients/python/src/pipewright/_generate.py:70-74 | The renaming loop ends, with the base name or the base with the least free number from 2. |
| ClientNames.Render | clients/python/src/pipewright/_generate.py:60-74 | One name for each operation under /api/v1/, by address and method, all different. |
| ClientNames.OperationsAre | clients/python/src/pipewright/_generate.py:63-69 | The operations named are exactly the document's, under /api/v1/, for the five methods. |
| ClientNames.OperationsDiffer | clients/python/src/pipewright/_generate.py:63-69 | And each of them once. |
| ClientNames.NamesAreDifferent | clients/python/src/pipewright/_generate.py:70-74 | Names each free after those before them all differ, even where one natively ends in a number. |
| ClientNames.DecimalsDiffer | clients/python/src/pipewright/_generate.py:71-73 | Different counters are written differently, so the loop never tries a name twice. |
| ClientNames.MethodNameIsFunctionName | clients/python/src/pipewright/_generate.py:37-40 | An operation id built from a function's name, the cleaned address and the method gives the cleaned function name. |
| ClientNames.NamedAfterItsFunction | clients/python/src/pipewright/_generate.py:3-5 | An operation id of a function's name, the cleaned address and the method is named after the function, in lower case. |
| ClientNames.NamedAfterItsAddress | clients/python/src/pipewright/_generate.py:70-70 | An operation without an id is named after its method and cleaned address. |
| DatasetGroups.GroupDatasets | apps/web/src/lib/dataset-origin.ts:70-88 | One group for each key; the groups are returned with the latest loads first, and their versions are the given records, as a multiset. |
| DatasetGroups.OriginIsExact | apps/web/src/lib/dataset-origin.ts:47-59 | When a dataset is a feed's, a recipe's, imported or uploaded. |
| DatasetGroups.CollectSplits | apps/web/src/lib/dataset-origin.ts:71-75 | The buckets have each key once, with exactly its records in the given order. |
| DatasetGroups.GroupOfRecords | apps/web/src/lib/dataset-origin.ts:77-86 | A group's versions are its key's records sorted newest first, its latest is the first, and its name and origin are the latest's. |
| DatasetGroups.LatestIsNewest | apps/web/src/lib/dataset-origin.ts:78-79 | Every record is among its group's versions, and none is newer than the group's latest. |

## Left out

- CreateIsExact: items whose `query`, `config` or column lists are not of the expected JSON shape read no columns here, where the code may raise; a "column" that is no text is compared as text.
- ImportAgain: assumes that names other items refer to have no spaces around, since a thing is otherwise stored under another name than the one it is referred to by, and that the mapping says the same for every spelling of a reference; a contract without a readable dataset makes its create raise, which ends an import and is no refusal.
- ReplanReferences: for items whose `dataset`, if it is a dictionary at all, is a dataset reference, as every export writes it; `ImportAgain` has no such condition.
- PlannedOverAContract: the converse is for a dataset with no other of its name, since contracts are listed by name and another dataset's contract would do; that `save_contract` then writes a new version of the existing contract is another service's code.
- DatasetOfIsRead: for a "dataset" that refers to something a bundle cannot make, as every export writes it.
- PartComesBack: what a create function stores of a part is taken to be what it was given, ids to be keys, and each item to be written under the keys of the export's own field lists (none holds a list of checks).
- ApartIsRestored: a sufficient condition on plugins and registries; handlers left by a refused tool and taken out again by a later plugin of the same name may also restore everything.
- EarlierSectionsResolve: a create that raises anything but an ApplicationError ends the import; only refusals are modelled.
- SweepsUnnoticed: for a monotone clock and states that are not begun twice; a refusal may be worded differently, which `Alike` allows.
- RoundTrip: over JSON numbers as reals; object keys may repeat, which Python's dictionaries do not allow.
- UserTable.DeactivateAbsent: query order is a parameter; the audit summary's counts and time are left out.
- Bundle sections' own field lists, rows and ordering at export, and the bodies of the create functions: schema and other services.
- `used_by` lists, the wording of reasons, and the option lists of a preview: reporting only.
- The planner's `Reference` and `Planned` objects are values inside the planner's fields, so changing one in place is an update of the field.
- `dataset_activity.py`: it filters after its cut, so its pages are not slices of a stream.
- The queries behind each activity feed: a feed is a sequence already in order of time and id, without repeats.
- Two callbacks for one state at the same instant: reading and deleting the state row is one step.
- The provider's discovery, code exchange, keys and token verification: one outcome per callback.
- Password hashes, and roles other than by name.
- Finding plugins, their statuses' checks and reasons, and what the suites check: outcomes of each contribution are parameters.
- The tree of areas and tabs itself: theorems hold for every tree; areas and tabs are named by position.
- Reading the recent list from browser storage: a store that cannot be written keeps what it had.
- The generated client's source beyond its method names.
- JavaScript's and Python's sorts are a stable insertion sort; `localeCompare` on timestamps is comparison of numbers.
- `runtime_incidents.py`, `embed.py`, `runtime-health.ts`, `cron-words.ts` and other single-branch helpers: easy members only.
