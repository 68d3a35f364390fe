# optic-release-automation, modelled in Dafny

The optic release automation action runs in two halves around one pull
request.

- **Opening a release** (`src/openPr.js`). The action creates a
  `release/<version>` branch (`release/<package>-<version>` for a monorepo
  package), commits and pushes it, and creates a draft GitHub release. It
  attaches artifacts, then opens a pull request. That pull request's title
  carries the `[OPTIC-RELEASE-AUTOMATION]` prefix, and its body embeds the
  release meta between `<release-meta>` tags.
- **Finishing a release** (`src/release.js`). When the bot's pull request is
  closed, the action reads the meta back out of the body and deletes the
  release branch.
  - If the pull request was not merged, it discards the draft release.
  - If it was merged, it publishes to npm, moves the semver tags, publishes
    the GitHub release, notifies the issues the release closes, and uploads a
    build artifact.
- **The earlier finishing step** (`release.js` at the repository root). It
  reads the meta the same way but deletes no branch. An unmerged pull request
  discards the draft release. A merged one publishes to npm, moves only the
  non-zero major and minor tags, and publishes the GitHub release; it
  notifies no issue and uploads no artifact.
- **Helpers.** `src/utils/releaseNotes.js` finds the pull requests a
  release's notes link to. `src/utils/notifyIssues.js` comments on the issues
  those pull requests close.

## How the model works

Each entry point is a pure function of:

- its inputs (a map from input name to text; a missing input is JavaScript's
  `undefined`);
- the foreign parsers and renderers it calls, passed in as function
  parameters: `JSON.parse` of the meta, `semver.parse`, the `pr.tpl` template,
  and the commit-message transformer;
- an environment `Env` that decides whether each external step succeeds.

An external step is a git or npm command, a GitHub API call, or a zip. It is
a `Step` value. A run produces a trace of `Attempt(step)` and
`Failed(message)` effects, where `Failed` is `core.setFailed`. The run ends
in one of these ways:

- `Skipped`: the guard turned the event away;
- `BadMeta`: the meta could not be read;
- `Done`: the function returned;
- `Threw(message)`: an exception escaped.

The model has these modules:

- `JsText`: the JavaScript string operations the code relies on, each with
  its edge cases (`indexOf`, `lastIndexOf`, `substring`, `startsWith`,
  `/true/i.test`, `split`, decimal digits).
- `Workflow`: inputs, steps, traces, and awaiting a series of steps inside
  one `try`.
- `Semver`: the tag names.
- `Release`, `OpenPr` and `LegacyRelease`: the three entry points.
- `ReleaseNotes` and `NotifyIssues`: the two helpers.
- `ReleaseProperties`, `OpenPrProperties` and `LegacyProperties`: the
  properties proved of the entry points.
- `Pipeline`: the hand-off from the opening half to the finishing half.

### The hand-off between the two halves

- The title the opening half gives its pull request always passes the
  finishing half's guard.
- The meta wrapped in the tags is read back exactly.
- Outside a monorepo, the branch the finishing half deletes is the branch the
  opening half pushed.
- For a monorepo package it is not. The opening half pushes
  `release/<package>-<version>`, but the finishing half deletes
  `release/<version>`, and no later step deletes the pushed branch
  (`Pipeline.MonorepoBranchMismatch`). This is stated as a property of the
  code as written. The source does not say that the monorepo branch should be
  deleted, so it is not claimed as a defect.

## Model

| member | source | states |
|---|---|---|
| JsText.IndexOf | src/release.js:38 | the first position where the tag occurs, or -1 exactly when it occurs nowhere; no earlier position matches |
| JsText.LastIndexOf | src/release.js:39 | the last position where the tag occurs, or -1 exactly when it occurs nowhere; no later position matches |
| JsText.Substring | src/release.js:37-40 | `substring` clamps both ends into the text and swaps them when the start lies after the end: ordered in-range ends give the slice, reversed ones the slice between them, an end past the text the rest from the start, a non-positive end the prefix up to the start; two non-positive ends, or two ends past the text, give the empty string |
| JsText.SubstringSwap | src/release.js:37-40 | `substring` gives the same text whichever of its two arguments is the start |
| JsText.SubstringClamps | src/release.js:37-40 | `substring` of any two ends equals `substring` of those ends clamped into the text |
| JsText.TestIgnoringCase | src/release.js:79 | `/true/i.test` holds exactly when some window of the text equals "true" after lower-casing |
| JsText.NatToDecimal | src/release.js:105-107 | the tag numbers are printed as non-empty digit strings without a leading zero |
| JsText.DecimalRoundTrip | src/utils/notifyIssues.js:96 | `parseInt` of a number's decimal text gives the number back |
| JsText.DecimalInjective | src/utils/notifyIssues.js:96 | two numbers with the same decimal text are equal |
| JsText.Split | src/utils/releaseNotes.js:20 | `split('/')` gives at least one part, no part contains the separator, and joining the parts with it rebuilds the text |
| Workflow.Flag | src/release.js:79 | an input flag is on exactly when the input is present and contains "true" in any letter case; a missing input, read as the text "undefined", is off |
| Workflow.UndefinedIsNotTrue | src/release.js:100 | the text "undefined" does not contain "true" in any letter case |
| Workflow.Sequence | src/openPr.js:105-116 | awaited steps run in order; the first rejection stops the series with its message, all earlier steps succeeded, and no later step is attempted |
| Workflow.SequenceLocal | src/openPr.js:105-114 | a series' trace depends only on the outcomes of its own steps |
| Workflow.Attempts | src/release.js:49-59 | the steps listed are exactly the attempted ones |
| Workflow.Failures | src/release.js:70-72 | the messages listed are exactly the ones set failed |
| Workflow.AttemptsAppend | src/release.js:81-111 | trace algebra used to split a run into its blocks: the attempts of concatenated traces are the attempts of the pieces, concatenated |
| Workflow.FailuresAppend | src/release.js:109-151 | trace algebra used to split a run into its blocks: the failures of concatenated traces are the failures of the pieces, concatenated |
| Workflow.TaggedMiddle | src/release.js:99-111 | trace algebra used to isolate the tagging block: a run whose other blocks move no tag moves exactly the tags of its middle block |
| Semver.SyncTags | src/release.js:103-107 | the three tags are `v{M}`, `v{M}.{m}`, `v{M}.{m}.{p}`, each extending the previous one with a dot |
| Semver.MajorTag | src/release.js:105 | the major tag is `v` followed by decimal digits that spell the major number |
| Semver.MinorTag | src/release.js:106 | the minor tag is the major tag, a dot and decimal digits that spell the minor number |
| Semver.PatchTag | src/release.js:107 | the patch tag is the minor tag, a dot and decimal digits that spell the patch number |
| Semver.ConditionalTags | release.js:72-75 | `v{M}` is present exactly when the major is non-zero, `v{M}.{m}` exactly when the minor is non-zero, nothing else, in that order |
| Semver.MajorTagInjective | release.js:74 | different majors give different major tags |
| Release.Recover | src/release.js:90-96 | the commit is reverted exactly when asked; a rejected revert throws its own error before failed is set; otherwise failed is set with the given message and nothing else |
| Release.MetaSlice | src/release.js:37-40 | the meta text is what lies between the end of the first opening tag and the start of the last closing tag when they come in that order; with neither tag present it is the first 13 characters, from JavaScript's -1 plus 14 (counted in characters rather than UTF-16 code units, see Left out); never longer than the body |
| Release.MetaOf | src/release.js:34-44 | a missing body reads no meta, its `substring` throwing inside the `try`; a meta that is read is the parse of that slice |
| Release.PublishSteps | src/release.js:82-89 | one npm publication exactly when the npm token is non-empty, carrying that token, the optic token input and the meta's optic URL, npm tag and version; nothing otherwise |
| Release.Discard | src/release.js:61-77 | only the draft release is deleted, the run returns, and failed is set exactly when the deletion is rejected |
| Release.Publish | src/release.js:79-97 | the merged branch returns or throws; with an npm token the publication is its first step |
| Release.Finalise | src/release.js:46-77 | the release branch deletion comes first and the run returns or throws; an unmerged pull request then deletes the draft release and returns |
| Release.TagAll | src/release.js:105-111 | with every tag step succeeding, all tags are attempted in order; any rejection sets failed once with the tags prefix; only tag steps are attempted |
| Release.TagSteps | src/release.js:105-107 | one tag step per tag, in order |
| Release.TaggedVersionsOfTagSteps | src/release.js:105-107 | attempting the tag steps moves exactly the given tags, in order |
| Release.SyncSemverTags | src/release.js:99-111 | with the flag off nothing happens; with it on and an unparsable version, failed is set once with the tags prefix and the destructuring error and nothing is attempted; only tag steps are ever attempted |
| Release.PublishRelease | src/release.js:114-151 | the PATCH comes first; issues are notified exactly when it succeeded and the notify flag is on; a rejected PATCH reverts exactly when asked and sets failed with the release prefix unless the revert throws |
| Release.ReleaseArtifact | src/release.js:153-188 | a build folder input is what makes the artifact block do anything; the zip comes first; a rejected zip sets failed with the zip prefix and returns without uploading; after a zip the upload follows, and the block throws exactly when the upload is rejected, with its message |
| ReleaseProperties.ArtifactOutcomes | src/release.js:153-188 | the upload is attempted exactly when a folder is given and its zip succeeded; failed is set exactly when the zip is rejected; a throw comes only from a rejected upload, with its message |
| Release.ReleaseAndArtifact | src/release.js:113-188 | the PATCH is the first step; notification happens exactly when the PATCH succeeded and the flag is on; a rejected PATCH reverts exactly when asked |
| Release.Release | src/release.js:25-59 | the run is skipped exactly when the guard fails, stops with no effect exactly when the meta cannot be read, and otherwise starts by deleting `release/<meta version>` |
| ReleaseProperties.Unfold | src/release.js:25-59 | past the guard and with a readable meta the run is the finalisation of that meta |
| ReleaseProperties.GuardSkips | src/release.js:25-32 | a wrong action, author or title yields an empty, skipped run |
| ReleaseProperties.NotMergedDiscards | src/release.js:61-77 | a closed, unmerged pull request deletes the branch and the draft release and nothing else; failed is set exactly when the release deletion is rejected |
| ReleaseProperties.SyncAgrees | src/release.js:99-111 | the tagging block does not depend on commands or on the notification |
| ReleaseProperties.ReleaseAndArtifactAgree | src/release.js:113-188 | the release and artifact blocks do not depend on commands or on the notification |
| ReleaseProperties.PublishAgrees | src/release.js:79-188 | the merged branch does not depend on commands or on the notification |
| ReleaseProperties.OnlyWarnings | src/release.js:48-59 | the outcome of the branch deletion and of the issue notification never changes the run, since both are only logged |
| ReleaseProperties.NoTokenNoPublish | src/release.js:82-89 | without an npm token nothing is published |
| ReleaseProperties.MergedRun | src/release.js:46-97 | a merged pull request runs the branch deletion followed by the publishing branch |
| ReleaseProperties.PublishFailureStops | src/release.js:90-97 | a failed publication reverts exactly when asked, sets failed exactly when the run returns normally, and moves no tag and patches no release |
| ReleaseProperties.PublishedRun | src/release.js:81-188 | after a successful publication the run is the publication, then the tags, then the release and the artifact |
| ReleaseProperties.NoTagsInPublication | src/release.js:81-97 | publishing moves no tag |
| ReleaseProperties.SyncAttemptsAll | src/release.js:102-108 | with synchronisation on and every tag step succeeding, the three tags are attempted in order |
| ReleaseProperties.SyncedTags | src/release.js:99-108 | with synchronisation on and every tag step succeeding, the tags moved are exactly `v{M}`, `v{M}.{m}`, `v{M}.{m}.{p}` |
| ReleaseProperties.TagFailureStillPatches | src/release.js:109-125 | a rejected tag sets failed with the tags prefix, yet the release PATCH is still attempted |
| ReleaseProperties.PatchFailureRecovers | src/release.js:145-151 | a rejected PATCH reverts exactly when asked, sets failed unless the revert throws, and notifies no issue |
| ReleaseProperties.NotifyWhenPatched | src/release.js:127-142 | issues are notified exactly when the PATCH succeeded and the notify flag is on |
| OpenPr.NewVersion | src/openPr.js:97 | the new version is the version prefix input, or "undefined" when that input is missing, followed by the package version |
| OpenPr.BranchName | src/openPr.js:99-103 | the branch is `release/<package>-<version>` when a monorepo package is given, else `release/<version>`; always under `release/` |
| OpenPr.PrTitle | src/openPr.js:152 | the title starts with the release prefix followed by a space and the branch |
| OpenPr.GitSteps | src/openPr.js:105-114 | four git commands: check out the branch, stage everything, commit with the message wrapped in double quotes, push the same branch |
| OpenPr.DraftName | src/openPr.js:64-75 | the draft release is named exactly when a monorepo package is given, and the name is the package, " - " and the new version |
| OpenPr.DraftRelease | src/openPr.js:57-87 | the commit hash is read first; the draft targets it; either rejection is rethrown with the draft prefix; the value is the created release |
| OpenPr.Artifacts | src/openPr.js:120-135 | the artifact-path folder is attached first when given; the package folder is attached for a monorepo package unless the first attachment failed; failures escape with their own message |
| OpenPr.MetaFor | src/openPr.js:29-36 | the meta carries the draft release id, the new version and the npm tag, monorepo and optic URL inputs |
| OpenPr.TemplateFor | src/openPr.js:18-47 | the template gets the meta, the non-zero tags joined by ", ", whether an npm token is set, the sync flag, the artifact and the author; an unparsable version throws the destructuring error |
| OpenPr.PrFailureMessage | src/openPr.js:158-165 | the message is the prefixed pull-request error, extended exactly when the branch deletion also failed, and then with the branch name and the deletion error |
| OpenPr.OpenPullRequest | src/openPr.js:144-166 | a rejected pull request deletes the pushed branch and sets failed once; a created one needs nothing else |
| OpenPr.Propose | src/openPr.js:120-169 | after the draft release only attachments, the pull request and the branch deletion happen; setting failed still returns the draft release |
| OpenPr.OpenPr | src/openPr.js:89-116 | a missing or empty package version throws before any step; otherwise the branch checkout is first; failed is only set on a run that returns |
| OpenPrProperties.GitFailureStops | src/openPr.js:105-114 | the first rejected git command ends the run with its own error; only the commands up to it are attempted |
| OpenPrProperties.GitCommandsFirst | src/openPr.js:105-116 | successful git commands are the first four steps, and reading the commit hash follows |
| OpenPrProperties.DraftFailureStops | src/openPr.js:116 | a draft release that cannot be created ends the run with the draft prefix before any attachment or pull request |
| OpenPrProperties.DraftFailedRun | src/openPr.js:105-118 | a draft release that cannot be created ends the run right after it, with its error |
| OpenPrProperties.DraftMessage | src/openPr.js:57-87 | every draft release failure carries the draft prefix |
| OpenPrProperties.ProposeOpens | src/openPr.js:137-157 | with attachments done and the version parsed, the pull request is opened with the rendered body and the draft id is returned |
| OpenPrProperties.AfterDraft | src/openPr.js:105-120 | after git and the draft release the run continues with the proposal |
| OpenPrProperties.PreparedRun | src/openPr.js:105-169 | a prepared run's trace ends with opening the pull request, and it returns the draft id |
| OpenPrProperties.PullRequestCarriesMeta | src/openPr.js:137-169 | the pull request is opened from the release branch with the prefixed title and a body rendered from the meta of the new version and draft; the draft id is returned |
| OpenPrProperties.PrFailureCleansUp | src/openPr.js:158-169 | a rejected pull request ends the trace with deleting the branch and setting failed with the combined message, which is the only failure; the draft id is still returned |
| LegacyRelease.NpmPublish | release.js:62-64 | `npm publish` ends with `--tag <npmTag>` and carries `--otp <password>` exactly when a password was fetched |
| LegacyRelease.NpmBlock | release.js:56-66 | nothing runs without an npm token; only commands run; a rejected command throws its own error; a normal end means every command succeeded |
| LegacyRelease.ConditionalTagging | release.js:68-79 | only tag steps are attempted; the flag off does nothing; an unparsable version sets failed with the destructuring error; failed is set at most once |
| LegacyRelease.Patch | release.js:82-96 | the PATCH is attempted first and is the only step; failed is set, with the release prefix, exactly when it is rejected |
| LegacyRelease.Discard | release.js:39-54 | only the draft release is deleted; failed is set exactly when that is rejected |
| LegacyRelease.Publish | release.js:56-96 | the merged branch either returns or throws, and its only steps are commands, tag moves and the release PATCH |
| LegacyRelease.Settle | release.js:38-96 | after the meta is read the run returns or throws; an unmerged pull request only deletes its draft release and returns; nothing is reverted and no issue is notified |
| LegacyRelease.LegacyRelease | release.js:17-54 | skipped exactly when the guard fails; no effect exactly when the meta is unreadable; no revert and no notification ever |
| LegacyProperties.LegacyNotMergedDiscards | release.js:39-54 | an unmerged pull request only deletes the draft release, and sets failed exactly when that is rejected; no branch is deleted |
| LegacyProperties.LegacyMergedRun | release.js:37-56 | a merged pull request runs the publishing branch |
| LegacyProperties.OtpPublish | release.js:60-62 | with both tokens the password is fetched from the optic URL followed by the token, then passed to `npm publish --otp` |
| LegacyProperties.PlainPublish | release.js:63-65 | with only an npm token, `npm publish --tag <npmTag>` runs first, no password is fetched and no `curl` runs |
| LegacyProperties.NoTokenNoCommand | release.js:59 | without an npm token no command runs and the run returns normally |
| LegacyProperties.PublishFailureThrows | release.js:56-66 | a rejected `curl` or `npm publish` throws, sets nothing failed, and no tag or PATCH follows |
| LegacyProperties.PublishedLegacyRun | release.js:56-96 | after publishing, the tags and the PATCH follow and the run returns normally |
| LegacyProperties.LegacyTags | release.js:68-76 | with synchronisation on and the tags succeeding, exactly the non-zero major and minor tags are moved |
| LegacyProperties.TaggedLegacyRun | release.js:56-96 | after publishing, the tags moved are those of the tagging block alone |
| LegacyProperties.ConditionalAttemptsAll | release.js:71-76 | with synchronisation on and the tags succeeding, the conditional tags are attempted in order |
| LegacyProperties.LegacyTagFailureStillPatches | release.js:77-96 | a rejected tag sets failed, yet the PATCH is still attempted and the run returns |
| LegacyProperties.LegacyPatchFailure | release.js:94-96 | a rejected PATCH sets failed with the release prefix and the run returns |
| ReleaseNotes.SchemeLength | src/utils/releaseNotes.js:14 | a match opens with `https://` exactly when the next eight characters are that in any letter case, and otherwise with `http://` exactly when the next seven are |
| ReleaseNotes.UrlFrom | src/utils/releaseNotes.js:14 | the first position at or after a start where a URL match begins, or -1 when there is none |
| ReleaseNotes.RunEnd | src/utils/releaseNotes.js:14 | `\S+` extends the match up to the first white space or the end |
| ReleaseNotes.FirstUrl | src/utils/releaseNotes.js:14-18 | there is no URL exactly when no position starts a match; otherwise the URL is the maximal non-space run from the first position that starts one |
| ReleaseNotes.RefOfUrl | src/utils/releaseNotes.js:20-38 | a reference is found exactly when the URL has more than four '/'-separated parts, the fourth and fifth are non-empty and the last is a non-empty digit string; it is the last part, the fourth and the fifth; host and page kind are not looked at |
| ReleaseNotes.RefOfJoinedUrl | src/utils/releaseNotes.js:20-36 | for any parts without '/' joined by '/', the same condition and reference, stated on the parts |
| ReleaseNotes.IssueUrlRef | src/utils/releaseNotes.js:20-36 | an issue URL also yields a reference, since the page kind is not looked at |
| ReleaseNotes.RefOfToken | src/utils/releaseNotes.js:13-38 | a token without a URL yields nothing; a reference found has a non-empty numeric number and a non-empty owner and repository |
| ReleaseNotes.Gather | src/utils/releaseNotes.js:13-39 | the references gathered are exactly those some token yields, at most one per token |
| ReleaseNotes.GatherAppend | src/utils/releaseNotes.js:13-39 | gathering over concatenated token lists concatenates the results, so references keep the token order and their repeats |
| ReleaseNotes.Collect | src/utils/releaseNotes.js:13-39 | the references collected are exactly those of the tokens that yield one |
| ReleaseNotes.CollectAppend | src/utils/releaseNotes.js:13-39 | the references of consecutive token lists are concatenated, in token order |
| ReleaseNotes.CollectOneToken | src/utils/releaseNotes.js:13-39 | a single token contributes exactly its own reference, if it has one |
| ReleaseNotes.Dedupe | src/utils/releaseNotes.js:41 | duplicates are dropped: the result has the same elements and no repeats |
| ReleaseNotes.PrRefs | src/utils/releaseNotes.js:7-42 | the pull requests found are distinct and are exactly those some token names; with CollectAppend, CollectOneToken and DedupeKeepsOrder they come in the order of first mention |
| ReleaseNotes.DedupeKeepsOrder | src/utils/releaseNotes.js:41 | the kept elements appear in the order of their first occurrence |
| ReleaseNotes.DedupeOfDistinct | src/utils/releaseNotes.js:41 | a list without repeats is left unchanged |
| ReleaseNotes.DedupeIdempotent | src/utils/releaseNotes.js:41 | dropping duplicates twice is dropping them once |
| ReleaseNotes.SplitOfJoin | src/utils/releaseNotes.js:20 | splitting parts joined by a separator they do not contain gives the parts back |
| ReleaseNotes.UrlSplit | src/utils/releaseNotes.js:20-24 | a GitHub page URL splits into scheme, empty part, host, owner, repository, kind and last part |
| ReleaseNotes.PullUrlRef | src/utils/releaseNotes.js:20-38 | a pull-request URL yields its owner, repository and number |
| ReleaseNotes.CompareUrlIgnored | src/utils/releaseNotes.js:26-36 | a full-changelog compare URL yields no pull request |
| ReleaseNotes.UrlAfterPrefix | src/utils/releaseNotes.js:14 | a URL after a plain prefix ending in a space is the first match |
| ReleaseNotes.TokenRef | src/utils/releaseNotes.js:13-38 | a note line ending in a pull-request URL names that pull request |
| NotifyIssues.LinkedIssues | src/utils/notifyIssues.js:33-44 | missing nodes give no issue; otherwise one issue per node, in the queried repository |
| NotifyIssues.CommentBody | src/utils/notifyIssues.js:47-75 | the comment opens with the announcement naming the version; the npm line, when asked for, follows it directly; then the line linking the release; then the bot signature closes it, and nothing else is in it |
| NotifyIssues.BodyLinks | src/utils/notifyIssues.js:47-75 | every comment contains the version and the release URL; the one with the npm link also contains the package's npm URL for that version |
| NotifyIssues.VersionInBody | src/utils/notifyIssues.js:56-67 | the version stands right after the header's opening words |
| NotifyIssues.ReleaseUrlInBody | src/utils/notifyIssues.js:61-74 | the release URL stands inside the GitHub release line, just before the footer |
| NotifyIssues.NpmUrlInBody | src/utils/notifyIssues.js:53-60 | the npm URL stands inside the npm line, right after the header |
| NotifyIssues.NpmLineInserted | src/utils/notifyIssues.js:55-74 | the comment with the npm link is the one without it, with the npm line inserted after the announcement |
| NotifyIssues.SameRepo | src/utils/notifyIssues.js:112-117 | the issues kept are exactly those of the released repository |
| NotifyIssues.SameRepoAppend | src/utils/notifyIssues.js:112-117 | keeping the issues of consecutive lists concatenates what is kept, so order and repeats are preserved |
| NotifyIssues.SameRepoOne | src/utils/notifyIssues.js:112-117 | a single issue is kept exactly when it belongs to the released repository |
| NotifyIssues.IssuesOf | src/utils/notifyIssues.js:92-101 | the issues of one pull request are those its lookup returns, none when the lookup is rejected, all in the looked-up repository |
| NotifyIssues.Flat | src/utils/notifyIssues.js:101 | an element of the flattened lists is exactly an element of one of them |
| NotifyIssues.CollectIssues | src/utils/notifyIssues.js:92-101 | the lookups reject exactly when one pull request's lookup does, with that lookup's message; otherwise the issues are the concatenation, in pull-request order, of what each lookup returned |
| NotifyIssues.CollectedExactly | src/utils/notifyIssues.js:92-101 | an issue is collected exactly when some pull request's lookup returned it, and it then lies in that pull request's repository |
| NotifyIssues.Comment | src/utils/notifyIssues.js:110-136 | one comment per issue of the released repository, in order; the issues commented on successfully are exactly those whose comment was accepted |
| NotifyIssues.Notify | src/utils/notifyIssues.js:77-137 | every comment goes to the released repository and carries the one comment body |
| NotifyIssues.AttemptsIgnoreOutcomes | src/utils/notifyIssues.js:125-136 | which comments are attempted does not depend on whether earlier comments failed |
| NotifyIssues.CommentedExactly | src/utils/notifyIssues.js:110-123 | an issue gets a comment exactly when it is linked and belongs to the released repository |
| NotifyIssues.CommentOne | src/utils/notifyIssues.js:110-123 | a single issue of the released repository gets exactly one comment, with the given body |
| NotifyIssues.LookupFailureComments | src/utils/notifyIssues.js:92-101 | one rejected lookup rejects the whole notification, so nothing is commented |
| NotifyIssues.PullRequestInNotesNotified | src/utils/notifyIssues.js:88-123 | a note line linking a pull request of the released repository leads to a lookup of that number and a comment on the issue it closes |
| Pipeline.TitlePassesGuard | src/openPr.js:152 | the title of the opened pull request passes the finishing half's guard once the bot's pull request is closed |
| Pipeline.OtherTitlesSkipped | src/release.js:25-32 | a title without the prefix is skipped |
| Pipeline.FirstOpenTag | src/release.js:38 | with no opening tag before it, the wrapping tag is the first one found |
| Pipeline.LastCloseTag | src/release.js:39 | with no closing tag after it, the wrapping tag is the last one found |
| Pipeline.MetaSliceOfWrapped | src/release.js:34-44 | the finishing half reads back exactly the text between the tags, whatever that text holds |
| Pipeline.MetaRoundTrip | src/release.js:34-44 | the closed pull request gives back the meta the opening half serialised |
| Pipeline.ReleaseDeletesVersionBranch | src/release.js:46-55 | the closed pull request of a prepared run passes the guard, gives back its meta, and its release run first deletes `release/<new version>` |
| Pipeline.PushedBranchDeleted | src/release.js:46-55 | outside a monorepo the branch deleted at release is the one pushed when opening |
| Pipeline.MonorepoBranchMismatch | src/release.js:46-55 | for a monorepo package the branch deleted at release differs from the one pushed, and the pushed one is never deleted |
| Pipeline.OnlyDeletion | src/release.js:46-59 | the finishing half deletes no branch other than `release/<meta version>` |
| Pipeline.PublishSpawnsNothing | src/release.js:79-188 | the merged branch spawns no command directly: publishing, reverting, tagging, the release and the artifact each go through a helper, modelled as one step of its own kind |
| Pipeline.FinaliseSpawnsOnce | src/release.js:49-188 | after the branch deletion the finishing half makes no direct `run` call: src/release.js calls `run` itself only once, at :55; tagging, reverting and publishing spawn commands inside their helpers, each a step of its own kind here |

## Left out

- The one-time-password collector and `src/const.js` are not part of this
  model. `PR_TITLE_PREFIX` is given the value "[OPTIC-RELEASE-AUTOMATION]";
  no proof depends on that value.
- Process spawning, the network, the file system and zipping are left out.
  Each call is a `Step` whose outcome the environment decides.
- The `package.json` read in `src/utils/notifyIssues.js` is left out. Its
  name and version are parameters.
- Foreign libraries are parameters of the model, not modelled: `JSON.parse`,
  `JSON.stringify`, `semver.parse`, `lodash.template` with `pr.tpl`, and
  `transformCommitMessage`.
- markdown-it is left out: the release notes arrive as the list of inline
  token contents it would produce.
- `getPRBody` beyond the template arguments is left out: its truncation of
  long bodies and the template text. So is `getBumpedVersionNumber`.
- Logging (`logInfo`, `logWarning`, `logError`, `console.log`) is left out.
- Release.Release: the run treats the issue notification as one step whose
  rejection is only logged. `NotifyIssues.Notify` models what happens inside
  that step.
- NotifyIssues.CollectIssues: the lookup `pMap` at
  src/utils/notifyIssues.js:93-101 passes no options, so every lookup starts
  at once and the first rejection in time rejects the whole notification.
  The model runs the lookups in order and reports the first rejected one in
  list order, which may differ from the first in time. Nothing is commented
  in either case. Only the comment `pMap` at :133-136 is limited to ten at a
  time; the model also runs the comments in order.
- NotifyIssues.LinkedIssues: the GraphQL page limit of 100 closing issues
  belongs to the service and is not modelled.
- NotifyIssues.CollectIssues: `parseInt` of a long digit string loses
  precision past 2^53. The model reads any length exactly.
- LegacyRelease.Discard: the earlier entry point passes the error object
  itself to `core.setFailed`. The model records its message.
- OpenPr.Artifacts: the value returned by `attach` is always taken as a
  present artifact, whatever it is.
- LegacyRelease.NpmPublish: when the meta has no `npmTag`, the source passes
  `undefined` as a command argument. The model passes the text "undefined"
  instead, because the spawning library is not modelled.
- OpenPr.OpenPr: the model relies on `packageVersion` being text.
- Release.Release: a meta text that is the JSON literal `null` parses, and
  the destructuring at src/release.js:46 then throws a TypeError. The parser
  parameter answers `None` for it, so the model ends that run as `BadMeta`
  rather than `Threw`.
- LegacyRelease.LegacyRelease: the same holds for the destructuring at
  release.js:37.
- Release.Publish: this member's contract does not say that the merged
  branch makes no direct `run` call; `Pipeline.PublishSpawnsNothing` states
  that separately. src/release.js calls `run` itself only once, at :55;
  tagging, reverting and publishing spawn commands inside their helpers.
- Release.MetaSlice: JavaScript's `indexOf` and `substring` count UTF-16
  code units, while the model counts Unicode scalar values. With no opening
  tag the source keeps the first 13 code units and the model the first 13
  characters; the two differ when a character outside the Basic Multilingual
  Plane, such as an emoji, lies among them. Lone surrogates cannot occur in
  the model's strings at all. Between the tags the offsets cancel out, so
  that slice is the same.
