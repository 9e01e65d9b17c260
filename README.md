# Host confirmation, host entry and read queries — a Dafny model

This project models three pieces of Apache Ambari.

- **WizardStep3** (`step3_bootstrap.dfy`): the "Confirm Hosts" screen of the
  install wizard. It keeps an array of host rows (`name`, `bootStatus`,
  `bootLog`). A bootstrap status report updates the rows, except those already
  REGISTERED or REGISTERING. One registration poll moves DONE hosts to
  REGISTERING and listed REGISTERING hosts to REGISTERED. It then decides to
  stop, to poll again, or to time out, and on a timeout every host still
  REGISTERING fails. Retrying puts the FAILED hosts back to RUNNING. Loading,
  clearing, removing rows and submitting lock and unlock the Next button.
  - The controller is a class whose methods update its fields in place.
  - In the source, `bootHosts` starts as an array of its own and is later made
    the very same array as `hosts`. The model keeps that aliasing as a flag,
    `bootHostsShared`.
  - A registration poll reads `registrationStartedAt` but never moves it,
    because the source calls `get` where its comment says it re-arms the
    timer. So the timeout is measured from the first registration start, and
    a host that finishes bootstrapping during the last poll gets no time to
    register. `TimeoutFailsLateHosts` states this.
  - Bootstrap reports replace a host's log and can move a host backwards
    (DONE to RUNNING, FAILED to DONE), as the code does. Only registration
    messages are appended.
- **WizardStep2** (`step2_host_entry.dfy`): the "Install Options" screen.
  - The typed host list is trimmed and split on runs of white space.
  - Names starting or ending with '-' are invalid.
  - The form has a "required" error and an "invalid" error for host names,
    with "required" winning, and a "required" error for the SSH key. Together
    they gate the Next button.
  - The host dictionary handed to the next screen has one PENDING entry per
    distinct name.
  - `name[NN-MM]` ranges are expanded by `patternExpression`. The regular
    expressions are modelled as written: the start is the digits after the
    FIRST '[' of the token, and the end is the digits after the FIRST '-'
    anywhere in it. So `my-host[1-3]` has an empty end, `parseInt` gives NaN,
    and the token is dropped.
- **ReadQuery** (`read_query.dfy`): `QueryImpl`, the default read query of the
  REST API server.
  - The category index is a map from '/'-separated paths to property sets,
    closed under prefixes.
  - The selection is a map from category names to property sets, with
    per-category and per-property temporal information.
  - A property is selected in this order of precedence: the wildcard, a
    property of a schema category, a subtree of the index, or a routing to a
    sub-resource.
  - The equality predicate on the resource ids is combined with the user's
    predicate. The request carries one property id per selected pair.
- `wizard_hosts.dfy` holds the host record shared by both wizard screens.
  `wrappers.dfy` holds `Option`.

## Model

Paths are relative to the repository root.

| member | source | states |
|---|---|---|
| WizardStep3.Step3Controller.constructor | ambari-web/app/controllers/wizard/step3_controller.js:23-28 | no rows, boot hosts a list of their own, no registration start, a 120-second timeout, submit locked, no polls |
| WizardStep3.WithStatus | ambari-web/app/controllers/wizard/step3_controller.js:38-43 | `filterProperty('bootStatus', s)` keeps exactly the hosts with status `s` |
| WizardStep3.WithStatusCounts | ambari-web/app/controllers/wizard/step3_controller.js:38-43 | the filtered list has as many hosts as the count of that status |
| WizardStep3.CountStatusPositive | ambari-web/app/controllers/wizard/step3_controller.js:79-81 | a status count is positive iff some host has that status (`someProperty`) |
| WizardStep3.StatusCountsFitHosts | ambari-web/app/controllers/wizard/step3_controller.js:38-43 | the Success, Installing, Registering and Failed counts add up to at most the number of hosts |
| WizardStep3.Step3Controller.IsRetryDisabled | ambari-web/app/controllers/wizard/step3_controller.js:79-81 | retry is enabled only when some boot host is FAILED and submit is unlocked |
| WizardStep3.Step3Controller.HostsCount | ambari-web/app/controllers/wizard/step3_controller.js:38-66 | a category's count is at most the number of rows, and for a status category it is positive iff some row has that status |
| WizardStep3.Step3Controller.VisibleHosts | ambari-web/app/controllers/wizard/step3_controller.js:175-182 | All Hosts shows every row; any other category shows only rows with its status, as many as its count |
| WizardStep3.Step3Controller.SomeBootHostHas | ambari-web/app/controllers/wizard/step3_controller.js:80 | the loop finds a boot host with the status iff one exists |
| WizardStep3.Step3Controller.ClearStep | ambari-web/app/controllers/wizard/step3_controller.js:107-111 | no rows are left and submit is locked |
| WizardStep3.Step3Controller.LoadStep | ambari-web/app/controllers/wizard/step3_controller.js:113-153 | the rows are the saved hosts in order, each with its name and status and no log; the registration start is reset; submit is unlocked iff there is a row |
| WizardStep3.Without | ambari-web/app/controllers/wizard/step3_controller.js:190 | `removeObjects` keeps exactly the rows whose name is not among those removed |
| WizardStep3.Step3Controller.RemoveHosts | ambari-web/app/controllers/wizard/step3_controller.js:184-200 | the rows become exactly `Without` of the old rows: the rows not named, in their old order; submit locks when none is left |
| WizardStep3.Step3Controller.DoBootstrap | ambari-web/app/controllers/wizard/step3_controller.js:258-259 | each bootstrap poll is counted |
| WizardStep3.Step3Controller.StartBootstrap | ambari-web/app/controllers/wizard/step3_controller.js:249-256 | the boot hosts become the rows, all PENDING; the registration start is reset; one poll is counted |
| WizardStep3.Step3Controller.StartRegistration | ambari-web/app/controllers/wizard/step3_controller.js:306-312 | records `now` and polls iff no registration start is recorded; otherwise it changes nothing |
| WizardStep3.Step3Controller.NavigateStep | ambari-web/app/controllers/wizard/step3_controller.js:86-105 | rows are loaded with their names and no log. Automatic path: bootstrap starts (all PENDING) unless it already ran, in which case the stored statuses stay. Manual path: every row is a boot host in DONE and registration starts at `now` |
| WizardStep3.FirstNamed | ambari-web/app/controllers/wizard/step3_controller.js:161 | `findProperty('name', …)` gives the first host with that name, or none when no host has it |
| WizardStep3.ApplyReport | ambari-web/app/controllers/wizard/step3_controller.js:159-169 | the loop of `parseHostInfo` applies the entries in order, each to the first host of its name unless that host is REGISTERED or REGISTERING; its effect is stated by the lemmas below |
| WizardStep3.Step3Controller.ParseHostInfo | ambari-web/app/controllers/wizard/step3_controller.js:159-172 | the boot hosts become the report applied entry by entry; the result is true iff there are boot hosts and one is RUNNING |
| WizardStep3.ApplyReportKeepsNames | ambari-web/app/controllers/wizard/step3_controller.js:159-169 | a report keeps the number of hosts, their order and their names |
| WizardStep3.ApplyReportPerHost | ambari-web/app/controllers/wizard/step3_controller.js:159-169 | per host: the first host of a name goes through the entries naming it, in order; a later host with the same name is untouched |
| WizardStep3.ProtectedHostUnchanged | ambari-web/app/controllers/wizard/step3_controller.js:165-168 | a REGISTERED or REGISTERING host keeps its whole record through any report |
| WizardStep3.HostFoldKeepsProtected | ambari-web/app/controllers/wizard/step3_controller.js:165 | the entries naming a protected host leave it as it is |
| WizardStep3.HostFoldTakesLastEntry | ambari-web/app/controllers/wizard/step3_controller.js:159-169 | an unprotected host that no entry names is unchanged; for a report whose entries naming the host carry only bootstrap statuses (neither REGISTERED nor REGISTERING, which would freeze it for the rest of the loop), it takes the status of the last entry naming it, and that entry's log replaces its own |
| WizardStep3.Step3Controller.OnBootstrapStatus | ambari-web/app/controllers/wizard/step3_controller.js:266-285 | a null status does nothing; a lone entry counts as a one-entry list; registration starts iff some entry is DONE or FAILED and none was started; polling again iff `parseHostInfo` says so |
| WizardStep3.Step3Controller.SomeEntryFinished | ambari-web/app/controllers/wizard/step3_controller.js:275 | true iff some entry of the report is DONE or FAILED |
| WizardStep3.Advance | ambari-web/app/controllers/wizard/step3_controller.js:347-372 | the `switch` of one registration poll on one host: DONE becomes REGISTERING, and a listed REGISTERING host becomes REGISTERED, each with a line appended to its log; `AdvanceMovesForward` states what it may do |
| WizardStep3.AdvanceMovesForward | ambari-web/app/controllers/wizard/step3_controller.js:347-372 | a poll keeps the name, moves the status only DONE to REGISTERING or REGISTERING to REGISTERED, and only appends to the log (a null log read as "") |
| WizardStep3.Step3Controller.AdvanceBootHosts | ambari-web/app/controllers/wizard/step3_controller.js:332-373 | the boot hosts are advanced one by one; `stopPolling` is true iff no host was DONE, RUNNING, or REGISTERING and unlisted (PENDING does not hold polling) |
| WizardStep3.SweepFailsRegistering | ambari-web/app/controllers/wizard/step3_controller.js:381-388 | after the sweep no host is REGISTERING; the ones that were are FAILED with their log extended; the rest are unchanged |
| WizardStep3.Step3Controller.FailRegisteringBootHosts | ambari-web/app/controllers/wizard/step3_controller.js:384-387 | the loop applies the timeout sweep to the boot hosts |
| WizardStep3.Step3Controller.OnRegistrationPoll | ambari-web/app/controllers/wizard/step3_controller.js:323-389 | no JSON does nothing. Otherwise the boot hosts advance, and the poll converges if nothing holds polling. Otherwise it polls again while less than `registrationTimeoutSecs` have passed since `registrationStartedAt` (null read as 0). Otherwise it times out and sweeps. Only the rows change |
| WizardStep3.TimeoutFailsLateHosts | ambari-web/app/controllers/wizard/step3_controller.js:348-388 | on a timeout, a host that was DONE when the poll began, or REGISTERING and unlisted, ends FAILED, because the start time is never re-armed |
| WizardStep3.ConvergedPollIsFixpoint | ambari-web/app/controllers/wizard/step3_controller.js:332-375 | after a poll that stops polling, a further poll changes nothing and stops too |
| WizardStep3.Step3Controller.OnHostInfoResult | ambari-web/app/controllers/wizard/step3_controller.js:426-457 | a successful host-information request unlocks submit (`stopRegistration`); an error leaves it as it was |
| WizardStep3.RetryCounts | ambari-web/app/controllers/wizard/step3_controller.js:236-245 | after retrying no host is FAILED; the RUNNING count grows by exactly the FAILED count; every other count is kept |
| WizardStep3.SetAllStatusCounts | ambari-web/app/controllers/wizard/step3_controller.js:231 | `setEach('bootStatus', s)` keeps every host and its name and puts every host in status `s`, so no host is left in any other status |
| WizardStep3.Step3Controller.RetrySelectedHosts | ambari-web/app/controllers/wizard/step3_controller.js:221-245 | disabled retry (no FAILED boot host, or submit locked) does nothing. Otherwise FAILED hosts are retried, then either a bootstrap is requested for exactly those hosts, or (manual) every boot host goes to DONE and registration restarts at `now` |
| WizardStep3.Step3Controller.Submit | ambari-web/app/controllers/wizard/step3_controller.js:460-465 | the boot hosts are handed on iff submit is unlocked |
| WizardStep2.Trim | ambari-web/app/controllers/wizard/step2_controller.js:66 | `trim()` is the middle of the text between the white space at both ends; the result neither starts nor ends with white space |
| WizardStep2.SplitOnWhiteSpace | ambari-web/app/controllers/wizard/step2_controller.js:66 | `split(/\s+/)` gives at least one piece, and no piece holds white space; `SplitRebuildsText` states which characters the pieces are |
| WizardStep2.SplitRebuildsText | ambari-web/app/controllers/wizard/step2_controller.js:66 | the text is its pieces with a non-empty run of white space between each two, in order: splitting drops only the white space |
| WizardStep2.SplitTrimmedHasNoEmptyToken | ambari-web/app/controllers/wizard/step2_controller.js:66 | splitting text with no white space at either end gives no empty name |
| WizardStep2.SplitJoinRoundTrip | ambari-web/app/controllers/wizard/step2_controller.js:66 | non-empty names joined by single spaces split back into the same names |
| WizardStep2.Step2Controller.constructor | ambari-web/app/controllers/wizard/step2_controller.js:21-50 | the form's fields as given; not submitted; no names stored; no pattern |
| WizardStep2.InstallTypeOf | ambari-web/app/controllers/wizard/step2_controller.js:52-58 | the install type is manual iff `manualInstall` is exactly true; unset or false is the automatic one |
| WizardStep2.IsHostNameValid | ambari-web/app/controllers/wizard/step2_controller.js:60-63 | a name is refused iff it starts or ends with '-'; the empty name is accepted |
| WizardStep2.Step2Controller.IsAllHostNamesValid | ambari-web/app/controllers/wizard/step2_controller.js:65-73 | stores the trimmed, split names, and is true iff none starts or ends with '-' |
| WizardStep2.Step2Controller.CheckNames | ambari-web/app/controllers/wizard/step2_controller.js:67-72 | the loop, which stops at the first invalid name, is true iff every name is valid |
| WizardStep2.Step2Controller.HostsError | ambari-web/app/controllers/wizard/step2_controller.js:75-82 | "required" when submitted with blank text, before any validation; else "invalid" when a name is invalid; else none. The names are stored whenever validation runs |
| WizardStep2.HostNamesError | ambari-web/app/controllers/wizard/step2_controller.js:75-82 | never the key error; "required" iff submitted with blank text; no error iff not ("submitted and blank") and every typed name is valid |
| WizardStep2.SshKeyError | ambari-web/app/controllers/wizard/step2_controller.js:84-89 | only the key error, and exactly when the form was submitted, `manualInstall` is exactly false and the trimmed key is empty |
| WizardStep2.SubmitDisabled | ambari-web/app/controllers/wizard/step2_controller.js:207-209 | submit is disabled iff the host-name error or the key error is set |
| WizardStep2.Step2Controller.IsSubmitDisabled | ambari-web/app/controllers/wizard/step2_controller.js:207-209 | the controller's flag is `SubmitDisabled` of its current fields |
| WizardStep2.BlankHostListIsNeverInvalid | ambari-web/app/controllers/wizard/step2_controller.js:65-82 | blank text splits into the one empty name, which is valid, so it draws only "required" and only once submitted |
| WizardStep2.AcceptedHostListIsUsable | ambari-web/app/controllers/wizard/step2_controller.js:65-82 | a submitted list with no host-name error is a non-empty list of non-empty names, without white space, none starting or ending with '-' |
| WizardStep2.UnsubmittedFormShowsOnlyInvalidNames | ambari-web/app/controllers/wizard/step2_controller.js:84-89 | before submitting there is never an SSH-key error, and submit is disabled iff some name is invalid |
| WizardStep2.SubmittedLaunchHasHostsAndKey | ambari-web/app/controllers/wizard/step2_controller.js:114-177 | a bootstrap is launched only for a submitted form on the automatic path. Its typed host list is non-empty with usable names, and the key is set when `manualInstall` is false |
| WizardStep2.Step2Controller.EvaluateStep | ambari-web/app/controllers/wizard/step2_controller.js:114-129 | it stays iff submit is disabled; it shows the expanded names when `isPattern` is set; else the manual popup when `manualInstall` is true; else it launches the stored names with the key |
| WizardStep2.LaunchedHostsAreStoredNames | ambari-web/app/controllers/wizard/step2_controller.js:114-163 | the launched list is the stored one, with the key as typed. When the stored names are the typed ones or their expansion, every launched name is non-empty and valid; the typed list is never empty, and the expanded one is empty iff every typed name holds a rejected range |
| WizardStep2.Step2Controller.GetHostInfo | ambari-web/app/controllers/wizard/step2_controller.js:94-107 | exactly one entry per distinct stored name, keyed by it, with that name, the current install type and PENDING |
| WizardStep2.RangeGroupAt | ambari-web/app/controllers/wizard/step2_controller.js:136 | a match of `\[\d*\-\d*\]` starts with '[' and ends with ']' |
| WizardStep2.FirstRangeGroup | ambari-web/app/controllers/wizard/step2_controller.js:136 | a found group is a match inside the token |
| WizardStep2.FirstRangeGroupIsLeftmost | ambari-web/app/controllers/wizard/step2_controller.js:136 | the found group is the leftmost match, and when none is found there is no match at all |
| WizardStep2.DigitsAfterFirst | ambari-web/app/controllers/wizard/step2_controller.js:137-140 | the text after the first '[' (or '-') is all digits |
| WizardStep2.NatToString | ambari-web/app/controllers/wizard/step2_controller.js:149 | a number prints as a non-empty string of digits with no leading zero (except 0 itself) |
| WizardStep2.NatToStringRoundTrip | ambari-web/app/controllers/wizard/step2_controller.js:149 | `parseInt(String(n)) == n` |
| WizardStep2.NatToStringInjective | ambari-web/app/controllers/wizard/step2_controller.js:149 | different numbers print differently |
| WizardStep2.RangeNameParts | ambari-web/app/controllers/wizard/step2_controller.js:149 | a range name keeps the text before and after the group, with a digit next to each |
| WizardStep2.RangeNameInjective | ambari-web/app/controllers/wizard/step2_controller.js:149 | different numbers give different range names |
| WizardStep2.RangeNamesDistinct | ambari-web/app/controllers/wizard/step2_controller.js:148-150 | a range's names are pairwise different |
| WizardStep2.RangeNamesKeepAffixes | ambari-web/app/controllers/wizard/step2_controller.js:148-150 | every name of a range starts with the prefix and ends with the suffix |
| WizardStep2.RangeNamesValid | ambari-web/app/controllers/wizard/step2_controller.js:148-150 | with a prefix not starting and a suffix not ending with '-', every name of the range is a valid host name |
| WizardStep2.Step2Controller.RangeLoop | ambari-web/app/controllers/wizard/step2_controller.js:148-150 | the loop pushes the names for `start` up to `end`, in order |
| WizardStep2.Step2Controller.ExpandOne | ambari-web/app/controllers/wizard/step2_controller.js:135-154 | one token's expansion, and whether it had an accepted range |
| WizardStep2.RangeExpansionShape | ambari-web/app/controllers/wizard/step2_controller.js:142-150 | an accepted range gives `end - start + 1` names, all different, each keeping the text around the group |
| WizardStep2.RangeExpansionInOrder | ambari-web/app/controllers/wizard/step2_controller.js:144-149 | for each k up to `end - start`, the k-th name replaces the first group by "0" (for a multi-digit start beginning with 0) and then `start + k`: ascending, not padded |
| WizardStep2.ExpandTokenEmpty | ambari-web/app/controllers/wizard/step2_controller.js:136-154 | a token expands to nothing iff it holds a range group that the range test `parseInt(start) <= parseInt(end)` rejects (start above end, or an empty start or end read as NaN) |
| WizardStep2.ExpandAllEmpty | ambari-web/app/controllers/wizard/step2_controller.js:131-157 | the expansion of a list is empty iff every token holds a rejected range |
| WizardStep2.PlainTokensAreKept | ambari-web/app/controllers/wizard/step2_controller.js:152-154 | a list with no range groups comes out unchanged |
| WizardStep2.ExpandAllAppend | ambari-web/app/controllers/wizard/step2_controller.js:134-156 | expansion works token by token and keeps the tokens' order |
| WizardStep2.AnyExpandableMeansSomeToken | ambari-web/app/controllers/wizard/step2_controller.js:143 | the pattern flag is set iff some token holds an accepted range |
| WizardStep2.ExpansionKeepsNamesValid | ambari-web/app/controllers/wizard/step2_controller.js:131-157 | expanding a valid name gives only valid names |
| WizardStep2.ExpandAllKeepsNamesValid | ambari-web/app/controllers/wizard/step2_controller.js:131-157 | expanding non-empty valid names gives only non-empty valid names |
| WizardStep2.Step2Controller.PatternExpression | ambari-web/app/controllers/wizard/step2_controller.js:131-157 | the stored names are replaced by their expansions, token by token; `isPattern` is set iff some token had an accepted range, and never cleared |
| ReadQuery.IndexOfSlash | ambari-server/src/main/java/org/apache/ambari/server/api/query/QueryImpl.java:245 | `indexOf("/")` gives the first '/', or none when there is no '/' |
| ReadQuery.Segments | ambari-server/src/main/java/org/apache/ambari/server/api/query/QueryImpl.java:207 | the pieces a '/'-separated name is looked up by: at least one, none holding '/' |
| ReadQuery.SegmentsRoundTrip | ambari-server/src/main/java/org/apache/ambari/server/api/query/QueryImpl.java:207 | joining the pieces with '/' gives the name back |
| ReadQuery.SegmentsLastIsTail | ambari-server/src/main/java/org/apache/ambari/server/api/query/QueryImpl.java:312 | the last piece is empty iff the name is empty or ends with '/' |
| ReadQuery.SplitAgreesWithoutTrailingSlash | ambari-server/src/main/java/org/apache/ambari/server/api/query/QueryImpl.java:307-312 | for a name not ending in '/', `split("/")` gives the same path a lookup follows |
| ReadQuery.EnsurePath | ambari-server/src/main/java/org/apache/ambari/server/api/query/QueryImpl.java:313-321 | walking a path adds exactly its missing prefixes, as empty nodes, and keeps every existing node |
| ReadQuery.EnsurePathUnchanged | ambari-server/src/main/java/org/apache/ambari/server/api/query/QueryImpl.java:307 | in a prefix-closed index, walking to an existing node adds nothing |
| ReadQuery.EnsurePathKeepsClosed | ambari-server/src/main/java/org/apache/ambari/server/api/query/QueryImpl.java:313-321 | walking keeps the index prefix-closed and reaches the path's node |
| ReadQuery.AddCategoryToTreeGrows | ambari-server/src/main/java/org/apache/ambari/server/api/query/QueryImpl.java:306-323 | adding a category puts its properties at its node, loses nothing, and adds only its own properties |
| ReadQuery.BuildTreeGrows | ambari-server/src/main/java/org/apache/ambari/server/api/query/QueryImpl.java:304-325 | building keeps the index prefix-closed and loses no node or property |
| ReadQuery.BuildTreeHoldsEveryCategory | ambari-server/src/main/java/org/apache/ambari/server/api/query/QueryImpl.java:306-323 | every category's properties end up at the node its name finds, or at the node of its `split("/")` pieces |
| ReadQuery.BuildTreeOnlySchemaProperties | ambari-server/src/main/java/org/apache/ambari/server/api/query/QueryImpl.java:323 | no property enters the index except the schema's own |
| ReadQuery.Query.constructor | ambari-server/src/main/java/org/apache/ambari/server/api/query/QueryImpl.java:90-95 | nothing selected, no user predicate, and the index built from the schema's categories in the map's order |
| ReadQuery.Query.BuildAllPropertiesTree | ambari-server/src/main/java/org/apache/ambari/server/api/query/QueryImpl.java:304-325 | the loop builds the index category by category and keeps it prefix-closed |
| ReadQuery.Query.WalkPath | ambari-server/src/main/java/org/apache/ambari/server/api/query/QueryImpl.java:313-321 | the inner loop creates the missing children along the path |
| ReadQuery.MergeKeepsOthers | ambari-server/src/main/java/org/apache/ambari/server/api/query/QueryImpl.java:218-223 | selecting adds the batch's names, loses no selected property, and leaves every other name as it was |
| ReadQuery.MergeAddsEntries | ambari-server/src/main/java/org/apache/ambari/server/api/query/QueryImpl.java:223 | every property of the batch is selected under its name |
| ReadQuery.MergeTwice | ambari-server/src/main/java/org/apache/ambari/server/api/query/QueryImpl.java:216-229 | selecting two batches one after the other is selecting their union |
| ReadQuery.StampTwice | ambari-server/src/main/java/org/apache/ambari/server/api/query/QueryImpl.java:224 | recording temporal information for two batches is recording it for their union |
| ReadQuery.OwnEntryMerges | ambari-server/src/main/java/org/apache/ambari/server/api/query/QueryImpl.java:218-224 | a node's own step adds its properties to its category's set (created when absent) and records `t` for it |
| ReadQuery.SubtreeSplits | ambari-server/src/main/java/org/apache/ambari/server/api/query/QueryImpl.java:216-229 | a node's subtree selection is its own entry plus each child's subtree under "category/child" |
| ReadQuery.SubtreeSelectionCovers | ambari-server/src/main/java/org/apache/ambari/server/api/query/QueryImpl.java:216-229 | every descendant's properties are selected under its "category/child/…" name, with the category's temporal information |
| ReadQuery.CatNameJoins | ambari-server/src/main/java/org/apache/ambari/server/api/query/QueryImpl.java:227 | a descendant's name is the category, '/', and the path below it joined by '/' |
| ReadQuery.Query.AddCategoryNode | ambari-server/src/main/java/org/apache/ambari/server/api/query/QueryImpl.java:216-230 | the recursion selects the node's whole subtree and records `t` for every name it selects |
| ReadQuery.Query.AddChildren | ambari-server/src/main/java/org/apache/ambari/server/api/query/QueryImpl.java:226-228 | the loop over the children selects each child's subtree under "category/child" |
| ReadQuery.Query.AddCategory | ambari-server/src/main/java/org/apache/ambari/server/api/query/QueryImpl.java:205-214 | true iff the index has "category/name" (the name alone for a null category, "null" for a null name); then its subtree is selected, else nothing changes |
| ReadQuery.Query.AddAllProperties | ambari-server/src/main/java/org/apache/ambari/server/api/query/QueryImpl.java:185-203 | every schema category is selected with all its properties; a non-null `t` is recorded for every category; only sub-resources not yet selected are added |
| ReadQuery.Query.SelectAllCategories | ambari-server/src/main/java/org/apache/ambari/server/api/query/QueryImpl.java:189-195 | the loop sets each category's selection and temporal information |
| ReadQuery.Query.AddMissingSubResources | ambari-server/src/main/java/org/apache/ambari/server/api/query/QueryImpl.java:197-202 | the definition's sub-resources are added without overwriting selected ones |
| ReadQuery.HeadAndRestRebuildPath | ambari-server/src/main/java/org/apache/ambari/server/api/query/QueryImpl.java:245-255 | the sub-resource name has no '/', and it and the forwarded rest rebuild the path |
| ReadQuery.Query.AddPropertyToSubResource | ambari-server/src/main/java/org/apache/ambari/server/api/query/QueryImpl.java:232-260 | a null path means the property is the path. Its first piece must name a sub-resource, which is selected. The rest is forwarded iff there is a property or more path. Otherwise false and nothing changes |
| ReadQuery.Query.AddProperty | ambari-server/src/main/java/org/apache/ambari/server/api/query/QueryImpl.java:99-123 | tried in order: the wildcard; a local property (added to its category's set, `t` recorded under its id only when non-null); a subtree of the index; a sub-resource. `false` is the exception and changes nothing |
| ReadQuery.Query.AddPropertyId | ambari-server/src/main/java/org/apache/ambari/server/api/query/QueryImpl.java:125-128 | `addProperty` with no temporal information: the wildcard, a local id (added to its category's set with the temporal maps, sub-resources and forwards unchanged), a subtree or a sub-resource, as in `AddProperty` |
| ReadQuery.Query.SetUserPredicate | ambari-server/src/main/java/org/apache/ambari/server/api/query/QueryImpl.java:180-183 | stores the user predicate |
| ReadQuery.Conjoin | ambari-server/src/main/java/org/apache/ambari/server/api/query/QueryImpl.java:280-286 | a single predicate is returned as itself |
| ReadQuery.ConjoinMeansAll | ambari-server/src/main/java/org/apache/ambari/server/api/query/QueryImpl.java:280-286 | null iff there are no predicates; otherwise the result holds iff every predicate holds |
| ReadQuery.Query.CreateInternalPredicate | ambari-server/src/main/java/org/apache/ambari/server/api/query/QueryImpl.java:262-287 | the loop builds one equality per resource id with a value and a key property, then combines them |
| ReadQuery.InternalPredicateMeansIdsMatch | ambari-server/src/main/java/org/apache/ambari/server/api/query/QueryImpl.java:267-286 | the internal predicate is null iff no id with a value has a key property; otherwise it accepts a resource iff the resource holds every such key property with the id's value |
| ReadQuery.CombinePredicates | ambari-server/src/main/java/org/apache/ambari/server/api/query/QueryImpl.java:289-302 | null iff both the user predicate and the internal predicate are null |
| ReadQuery.CombinedPredicateMeansBoth | ambari-server/src/main/java/org/apache/ambari/server/api/query/QueryImpl.java:289-302 | the combined predicate accepts a resource iff each part that exists does |
| ReadQuery.Query.CreatePredicate | ambari-server/src/main/java/org/apache/ambari/server/api/query/QueryImpl.java:289-302 | the user predicate combined with the internal one |
| ReadQuery.RequestIdsOnePerPair | ambari-server/src/main/java/org/apache/ambari/server/api/query/QueryImpl.java:331-343 | exactly one id per selected (category, property) pair, temporal iff category-level or property-level temporal information exists; no other id |
| ReadQuery.Query.CreateRequest | ambari-server/src/main/java/org/apache/ambari/server/api/query/QueryImpl.java:331-349 | the nested loops build those ids; the request carries the property-level temporal information |
| ReadQuery.ParentIdsResolve | ambari-server/src/main/java/org/apache/ambari/server/api/query/QueryImpl.java:351-367 | a known parent id is handed on as it is. An unknown one is handed on iff its type's key property is in the resource, with the resource's value. No other type is handed on |
| ReadQuery.Query.SetParentIdsOnSubResource | ambari-server/src/main/java/org/apache/ambari/server/api/query/QueryImpl.java:351-367 | the loop builds those parent ids |

## Left out

- AJAX calls, `window.setTimeout` rescheduling and `new Date().getTime()` are not modelled. Each success handler is a method that takes the parsed response and `now`, and returns what it would schedule next (`pollAgain`, `CycleOutcome`, `RetryAction`). Error handlers only log, except the host-information error, which is `OnHostInfoResult(false)`.
- The launched bootstrap request id (`bootRequestId`) and `App.router.send` are not modelled. `StepAction.LaunchBootstrap` and `RetryAction.BootstrapRequested` stand for the request.
- Ember's computed-property caching, observers, popups, I18n texts, `hostStatusSummary`'s formatting and the `isChecked` row selection (`removeSelectedHosts`, `onAllChecked`) are left out as UI glue. `RemoveHosts` takes the names of the rows to remove, and `EvaluateStep` reads the fields as they stand.
- WizardStep3.Step3Controller.RemoveHosts: removes rows by name, not by object identity. The two agree because the rows come from a dictionary keyed by name.
- The `App.testMode` and `App.skipBootstrap` branches, including the rename of the first host in test mode, are left out. They are test-only paths.
- The cpu, memory and disk copy in step3's `getHostInfo` is left out. It is numeric formatting of server data; only its effect on the Next button is modelled.
- WizardStep3.Step3Controller.NavigateStep: `bootstrapDone` stands for `App.db.getBootStatus() !== false`, read from storage.
- Numbers in `patternExpression` are unbounded. JavaScript's double precision for ranges beyond 2^53 is not modelled.
- `QueryImpl.execute` is left out. That covers resource fetching, the key-property default for collections, the default sub-resources, the result tree and the sub-queries' execution. Only the calls forwarded to a sub-resource's query are recorded, in `forwarded`.
- `ClusterController`, `Schema`, `TreeNodeImpl` and `PropertyHelper` are not part of this model.
  - The schema enters as the map of categories plus a key property per resource type.
  - `getChild` is taken to follow every '/'-separated piece of a name, empty pieces included.
  - In `setParentIdsOnSubResource`, the key property of each type comes in as a map (`typeKeys`).
- A null schema category (`addChild(…, null)` in `buildAllPropertiesTree`) and null properties inside schema sets are left out. Categories and properties are strings.
- `HashMap` and `HashSet` iteration order is not modelled. The schema's category order is a parameter of the constructor. Selections, predicate operands and request ids are sets.
- ReadQuery.Query.AddProperty: the wildcard puts the schema's own sets into the selection: with `putAll` for a null temporal information, and with a `put` per category otherwise. A later `addAll` into such a category (another `addProperty` on it) then grows the schema's set too, and with it later `containsKey`/`contains` tests against the schema. The model copies values, so it does not capture that aliasing.
- ReadQuery.Query.AddProperty: a null category together with a null property throws a `NullPointerException` in the source. That input is excluded by the precondition.
- ReadQuery.Query.AddProperty: `ok == false` stands only for this query's own `RuntimeException`. When a call is forwarded to a sub-resource's query, that query can throw the same exception for a rest it does not know, after the sub-resource has already been selected. The model records the forward with `ok == true` and does not model that throw.
- WizardStep2.LaunchedHostsAreStoredNames: the caller that runs `patternExpression` between validation and `evaluateStep` is not part of this model. The lemma takes as given that the stored names are the typed ones or their expansion.
