/**
 Release finalisation (`src/release.js`): when a release pull request is
 closed, read the release meta out of its body, delete the release branch, and
 either discard the draft release (not merged) or publish to npm, move the
 semver tags, publish the release, notify linked issues and attach an artifact.

 The run is a pure function of the event, the inputs, the foreign parsers
 (`JSON.parse` of the meta and `semver.parse`) and the environment that decides
 each external step. Logging is dropped; `core.setFailed` is the `Failed`
 effect.
 */
module Release {
  import opened JsText
  import opened Workflow
  import opened Semver

  const OpenTag: string := "<release-meta>"
  const CloseTag: string := "</release-meta>"

  datatype PullRequest = PullRequest(
    login: string,
    title: string,
    body: Option<string>,
    merged: bool,
    baseRef: string)

  /** The `pull_request` event payload: its action and its pull request. */
  datatype Event = Event(action: string, pr: PullRequest)

  datatype Repo = Repo(owner: string, name: string)

  /** A closed pull request, authored by the bot, whose title carries the
      release prefix. */
  predicate IsReleasePr(ev: Event) {
    && ev.action == "closed"
    && ev.pr.login == BotLogin
    && StartsWith(ev.pr.title, PrTitlePrefix)
  }

  /** `body.substring(body.indexOf('<release-meta>') + 14,
      body.lastIndexOf('</release-meta>'))`, with JavaScript's -1 for an
      absent tag and `substring`'s clamping and swapping. Offsets count
      characters, where JavaScript counts UTF-16 code units. */
  function MetaSlice(body: string): (r: string)
    ensures |r| <= |body|
    ensures var open, close := IndexOf(body, OpenTag) + 14, LastIndexOf(body, CloseTag);
      0 <= open <= close ==> r == body[open..close]
    ensures IndexOf(body, OpenTag) == -1 && LastIndexOf(body, CloseTag) == -1 ==>
      r == body[..Clamp(13, |body|)]
  {
    Substring(body, IndexOf(body, OpenTag) + 14, LastIndexOf(body, CloseTag))
  }

  /** The meta record, or `None` when the body is missing or `JSON.parse`
      rejects the slice (both end in `logError` and a return). */
  function MetaOf(pr: PullRequest, parseMeta: string -> Option<ReleaseMeta>): (r: Option<ReleaseMeta>)
    ensures pr.body.None? ==> r.None?
    ensures r.Some? ==> pr.body.Some? && parseMeta(MetaSlice(pr.body.value)) == r
  {
    match pr.body
    case None => None
    case Some(body) => parseMeta(MetaSlice(body))
  }

  const DeleteReleaseFailure: string := "Something went wrong while deleting the release. \n Errors: "
  const PublishFailure: string := "Unable to publish to npm: "
  const TagsFailure: string := "Unable to update the semver tags "
  const ReleaseFailure: string := "Unable to publish the release "
  const ZipFailure: string := "Unable to zip the build folder: "

  /** The catch block after a failed publish or PATCH: revert the release
      commit when asked to, then set failed. A rejected revert escapes the catch
      block and the whole run throws before anything is set failed. */
  function Recover(shouldRevert: bool, baseRef: string, message: string, env: Env): (r: Run)
    ensures Attempt(RevertCommit(baseRef)) in r.effects <==> shouldRevert
    ensures r.exit == Done || r.exit.Threw?
    ensures r.exit.Threw? <==> shouldRevert && env(RevertCommit(baseRef)).Err?
    ensures r.exit.Threw? ==> env(RevertCommit(baseRef)) == Err(r.exit.message)
    ensures Failed(message) in r.effects <==> r.exit == Done
    ensures forall m :: Failed(m) in r.effects ==> m == message
    ensures forall e :: e in r.effects && e.Attempt? ==> e.step == RevertCommit(baseRef)
  {
    if !shouldRevert then Run([Failed(message)], Done)
    else
      match env(RevertCommit(baseRef))
      case Err(m) => Run([Attempt(RevertCommit(baseRef))], Threw(m))
      case Ok(_) => Run([Attempt(RevertCommit(baseRef)), Failed(message)], Done)
  }

  /** The publish step, attempted only when an npm token is given. */
  function PublishSteps(inputs: Inputs, meta: ReleaseMeta): (r: seq<Step>)
    ensures |r| <= 1
    ensures |r| == 1 <==> Truthy(Input(inputs, "npm-token"))
    ensures |r| == 1 ==>
      && r[0].PublishToNpm?
      && Input(inputs, "npm-token") == Some(r[0].npmToken)
      && r[0].opticToken == Input(inputs, "optic-token")
      && r[0].opticUrl == meta.opticUrl && r[0].npmTag == meta.npmTag && r[0].version == meta.version
  {
    var npmToken := Input(inputs, "npm-token");
    if Truthy(npmToken) then
      [PublishToNpm(npmToken.value, Input(inputs, "optic-token"), meta.opticUrl, meta.npmTag, meta.version)]
    else []
  }

  /** Tag each of `tags` in turn; the first failure stops the tagging and sets
      failed. */
  function TagAll(tags: seq<string>, env: Env): (r: seq<Effect>)
    ensures (forall i :: 0 <= i < |tags| ==> env(TagVersion(tags[i])).Ok?) ==>
      r == AttemptAll(TagSteps(tags))
    ensures forall e :: e in r ==> e.Failed? || e.step.TagVersion?
    ensures (exists i :: 0 <= i < |tags| && env(TagVersion(tags[i])).Err?) ==>
      exists m :: Failed(TagsFailure + m) in r
    ensures |Failures(r)| <= 1
  {
    var steps := TagSteps(tags);
    var p := Sequence(steps, env);
    FailuresOfAttempts(p.effects);
    match p.error
    case None =>
      assert forall i :: 0 <= i < |tags| ==> env(steps[i]).Ok?;
      p.effects
    case Some(m) =>
      FailuresAppend(p.effects, [Failed(TagsFailure + m)]);
      p.effects + [Failed(TagsFailure + m)]
  }

  function TagSteps(tags: seq<string>): (r: seq<Step>)
    ensures |r| == |tags|
    ensures forall i :: 0 <= i < |tags| ==> r[i] == TagVersion(tags[i])
    ensures forall s :: s in r ==> s.TagVersion?
  {
    if |tags| == 0 then [] else [TagVersion(tags[0])] + TagSteps(tags[1..])
  }

  lemma {:induction false} TaggedVersionsOfTagSteps(tags: seq<string>)
    ensures TaggedVersions(AttemptAll(TagSteps(tags))) == tags
  {
    if |tags| > 0 {
      var steps := TagSteps(tags);
      assert steps[1..] == TagSteps(tags[1..]);
      assert AttemptAll(steps)[1..] == AttemptAll(steps[1..]);
      TaggedVersionsOfTagSteps(tags[1..]);
    }
  }

  /** The `sync-semver-tags` block: when the flag is on, move `v{M}`,
      `v{M}.{m}` and `v{M}.{m}.{p}`. */
  function SyncSemverTags(inputs: Inputs, version: string, parseVersion: string -> Option<Version>, env: Env): (r: seq<Effect>)
    ensures forall e :: e in r ==> e.Failed? || e.step.TagVersion?
    ensures !Flag(inputs, "sync-semver-tags") ==> r == []
    ensures Flag(inputs, "sync-semver-tags") && parseVersion(version).None? ==>
      r == [Failed(TagsFailure + NullVersionMessage)]
  {
    if !Flag(inputs, "sync-semver-tags") then []
    else
      match parseVersion(version)
      case None => [Failed(TagsFailure + NullVersionMessage)]
      case Some(v) => TagAll(SyncTags(v), env)
  }

  /** The PATCH of the release and, when it succeeds, the linked-issue
      notification, whose own failure is only logged. */
  function PublishRelease(pr: PullRequest, inputs: Inputs, meta: ReleaseMeta, shouldRevert: bool, env: Env): (r: Run)
    ensures |r.effects| > 0 && r.effects[0] == Attempt(PatchRelease(meta.version, meta.id))
    ensures r.exit == Done || r.exit.Threw?
    ensures forall e :: e in r.effects && e.Attempt? ==>
      e.step.PatchRelease? || e.step.RevertCommit? || e.step.NotifyLinkedIssues?
    ensures (exists e :: e in r.effects && e.Attempt? && e.step.NotifyLinkedIssues?)
      <==> env(PatchRelease(meta.version, meta.id)).Ok? && Flag(inputs, "notify-linked-issues")
    ensures env(PatchRelease(meta.version, meta.id)).Err? ==>
      && (Attempt(RevertCommit(pr.baseRef)) in r.effects <==> shouldRevert)
      && (r.exit.Threw? || Failed(ReleaseFailure + env(PatchRelease(meta.version, meta.id)).message) in r.effects)
    ensures env(PatchRelease(meta.version, meta.id)).Ok? ==> (forall e :: e in r.effects ==> e.Attempt?) && r.exit == Done
  {
    var patch := PatchRelease(meta.version, meta.id);
    match env(patch)
    case Err(m) =>
      var recovery := Recover(shouldRevert, pr.baseRef, ReleaseFailure + m, env);
      Run([Attempt(patch)] + recovery.effects, recovery.exit)
    case Ok(_) =>
      if Flag(inputs, "notify-linked-issues") then
        Run([Attempt(patch), Attempt(NotifyLinkedIssues(Truthy(Input(inputs, "npm-token"))))], Done)
      else Run([Attempt(patch)], Done)
  }

  /** The release artifact: zip the build folder and upload it. A zip failure
      sets failed and returns; an upload failure is not caught. */
  function ReleaseArtifact(inputs: Inputs, releaseId: string, env: Env): (r: Run)
    ensures r.exit == Done || r.exit.Threw?
    ensures forall e :: e in r.effects && e.Attempt? ==> e.step.ZipFolder? || e.step.UploadAsset?
    ensures Truthy(Input(inputs, "release-artifact-build-folder")) <==> |r.effects| > 0
    ensures var folder := Input(inputs, "release-artifact-build-folder");
      Truthy(folder) ==>
        var zip := ZipFolder(folder.value);
        && r.effects[0] == Attempt(zip)
        && (env(zip).Err? ==> r == Run([Attempt(zip), Failed(ZipFailure + env(zip).message)], Done))
        && (env(zip).Ok? ==>
              && r.effects == [Attempt(zip), Attempt(UploadAsset(releaseId))]
              && (r.exit.Threw? <==> env(UploadAsset(releaseId)).Err?)
              && (r.exit.Threw? ==> r.exit.message == env(UploadAsset(releaseId)).message))
  {
    var folder := Input(inputs, "release-artifact-build-folder");
    if !Truthy(folder) then Run([], Done)
    else
      var zip := ZipFolder(folder.value);
      match env(zip)
      case Err(m) => Run([Attempt(zip), Failed(ZipFailure + m)], Done)
      case Ok(_) =>
        match env(UploadAsset(releaseId))
        case Err(m) => Run([Attempt(zip), Attempt(UploadAsset(releaseId))], Threw(m))
        case Ok(_) => Run([Attempt(zip), Attempt(UploadAsset(releaseId))], Done)
  }

  /** The branch of a pull request closed without merging: delete the draft
      release; only a failed deletion sets failed. */
  function Discard(repo: Repo, meta: ReleaseMeta, env: Env): (r: Run)
    ensures r.exit == Done
    ensures |r.effects| > 0 && r.effects[0] == Attempt(DeleteRelease(repo.owner, repo.name, meta.id))
    ensures forall e :: e in r.effects && e.Attempt? ==> e.step.DeleteRelease?
    ensures Failures(r.effects) != [] <==> env(DeleteRelease(repo.owner, repo.name, meta.id)).Err?
  {
    var discard := DeleteRelease(repo.owner, repo.name, meta.id);
    match env(discard)
    case Err(m) => Run([Attempt(discard), Failed(DeleteReleaseFailure + m)], Done)
    case Ok(_) => Run([Attempt(discard)], Done)
  }

  /** The PATCH and the artifact; a PATCH whose recovery throws ends the run. */
  function ReleaseAndArtifact(pr: PullRequest, inputs: Inputs, meta: ReleaseMeta, shouldRevert: bool, env: Env): (r: Run)
    ensures r.exit == Done || r.exit.Threw?
    ensures forall e :: e in r.effects && e.Attempt? ==>
      !e.step.PublishToNpm? && !e.step.TagVersion? && !e.step.Spawn? && !e.step.DeleteRelease?
    ensures |r.effects| > 0 && r.effects[0] == Attempt(PatchRelease(meta.version, meta.id))
    ensures (exists e :: e in r.effects && e.Attempt? && e.step.NotifyLinkedIssues?)
      <==> env(PatchRelease(meta.version, meta.id)).Ok? && Flag(inputs, "notify-linked-issues")
    ensures env(PatchRelease(meta.version, meta.id)).Err? ==>
      && (Attempt(RevertCommit(pr.baseRef)) in r.effects <==> shouldRevert)
      && (r.exit.Threw? || Failed(ReleaseFailure + env(PatchRelease(meta.version, meta.id)).message) in r.effects)
  {
    var release := PublishRelease(pr, inputs, meta, shouldRevert, env);
    if release.exit.Threw? then release
    else
      var artifact := ReleaseArtifact(inputs, meta.id, env);
      Run(release.effects + artifact.effects, artifact.exit)
  }

  /** The branch of a merged pull request: publish, then (if publishing did
      not fail) tags, PATCH and artifact. */
  function Publish(pr: PullRequest, inputs: Inputs, meta: ReleaseMeta,
                   parseVersion: string -> Option<Version>, env: Env): (r: Run)
    ensures r.exit == Done || r.exit.Threw?
    ensures Truthy(Input(inputs, "npm-token")) ==>
      |r.effects| > 0 && r.effects[0] == Attempt(PublishSteps(inputs, meta)[0])
  {
    var shouldRevert := Flag(inputs, "revert-commit-after-failure");
    var publish := Sequence(PublishSteps(inputs, meta), env);
    match publish.error
    case Some(m) =>
      var recovery := Recover(shouldRevert, pr.baseRef, PublishFailure + m, env);
      Run(publish.effects + recovery.effects, recovery.exit)
    case None =>
      var tagging := SyncSemverTags(inputs, meta.version, parseVersion, env);
      var rest := ReleaseAndArtifact(pr, inputs, meta, shouldRevert, env);
      Run(publish.effects + tagging + rest.effects, rest.exit)
  }

  /** Everything after the meta has been read: the release branch is always
      deleted first. */
  function Finalise(pr: PullRequest, repo: Repo, inputs: Inputs, meta: ReleaseMeta,
                    parseVersion: string -> Option<Version>, env: Env): (r: Run)
    ensures |r.effects| > 0 && r.effects[0] == Attempt(DeleteBranch(ReleaseBranch(meta.version)))
    ensures r.exit == Done || r.exit.Threw?
    ensures !pr.merged ==>
      && r.exit == Done && |r.effects| > 1
      && r.effects[1] == Attempt(DeleteRelease(repo.owner, repo.name, meta.id))
  {
    var rest := if pr.merged then Publish(pr, inputs, meta, parseVersion, env) else Discard(repo, meta, env);
    Run([Attempt(DeleteBranch(ReleaseBranch(meta.version)))] + rest.effects, rest.exit)
  }

  /** The exported release function. */
  function Release(ev: Event, repo: Repo, inputs: Inputs, parseMeta: string -> Option<ReleaseMeta>,
                   parseVersion: string -> Option<Version>, env: Env): (r: Run)
    ensures r.exit == Skipped <==> !IsReleasePr(ev)
    ensures r.exit == BadMeta <==> IsReleasePr(ev) && MetaOf(ev.pr, parseMeta).None?
    ensures r.exit == Skipped || r.exit == BadMeta ==> r.effects == []
    ensures IsReleasePr(ev) && MetaOf(ev.pr, parseMeta).Some? ==>
      |r.effects| > 0 && r.effects[0] == Attempt(DeleteBranch(ReleaseBranch(MetaOf(ev.pr, parseMeta).value.version)))
  {
    if !IsReleasePr(ev) then Run([], Skipped)
    else
      match MetaOf(ev.pr, parseMeta)
      case None => Run([], BadMeta)
      case Some(meta) => Finalise(ev.pr, repo, inputs, meta, parseVersion, env)
  }
}
