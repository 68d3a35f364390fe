/**
 The earlier release entry point (`release.js` at the repository root). It
 shares the guard and the reading of the release meta with `src/release.js`
 but does not delete the release branch, runs `curl` and `npm publish` itself
 with nothing to catch their failures, moves only the non-zero major and minor
 tags, and stops after the release PATCH.
 */
module LegacyRelease {
  import opened JsText
  import opened Workflow
  import opened Semver
  import Release

  /** `curl -s ${opticUrl}${opticToken}`: fetch the one-time password. */
  function OtpRequest(meta: ReleaseMeta, opticToken: string): Step {
    Spawn("curl", ["-s", Str(meta.opticUrl) + opticToken])
  }

  /** `npm publish`, with `--otp` when a one-time password was fetched. */
  function NpmPublish(meta: ReleaseMeta, otp: Option<string>): (s: Step)
    ensures s.Spawn? && s.command == "npm" && |s.args| >= 3 && s.args[0] == "publish"
    ensures s.args[|s.args| - 2..] == ["--tag", Str(meta.npmTag)]
    ensures s.args[1] == "--otp" <==> otp.Some?
    ensures otp.Some? ==> s.args[2] == otp.value
  {
    match otp
    case None => Spawn("npm", ["publish", "--tag", Str(meta.npmTag)])
    case Some(p) => Spawn("npm", ["publish", "--otp", p, "--tag", Str(meta.npmTag)])
  }

  /** The npm block: nothing without an npm token; with an optic token the
      password is fetched first. A failed command escapes the function. */
  function NpmBlock(inputs: Inputs, meta: ReleaseMeta, env: Env): (r: Run)
    ensures r.exit == Done || r.exit.Threw?
    ensures forall e :: e in r.effects ==> e.Attempt? && e.step.Spawn?
    ensures !Truthy(Input(inputs, "npm-token")) <==> r.effects == []
    ensures r.exit.Threw? ==> exists e :: e in r.effects && env(e.step) == Err(r.exit.message)
    ensures r.exit == Done ==> forall e :: e in r.effects ==> env(e.step).Ok?
  {
    var optic := Input(inputs, "optic-token");
    if !Truthy(Input(inputs, "npm-token")) then Run([], Done)
    else if Truthy(optic) then
      var curl := OtpRequest(meta, optic.value);
      match env(curl)
      case Err(m) => Run([Attempt(curl)], Threw(m))
      case Ok(otp) =>
        var npm := NpmPublish(meta, Some(otp));
        match env(npm)
        case Err(m) => Run([Attempt(curl), Attempt(npm)], Threw(m))
        case Ok(_) => Run([Attempt(curl), Attempt(npm)], Done)
    else
      var npm := NpmPublish(meta, None);
      match env(npm)
      case Err(m) => Run([Attempt(npm)], Threw(m))
      case Ok(_) => Run([Attempt(npm)], Done)
  }

  /** The `sync-semver-tags` block of this entry point: `v{M}` unless the major
      is 0, `v{M}.{m}` unless the minor is 0. */
  function ConditionalTagging(inputs: Inputs, version: string, parseVersion: string -> Option<Version>, env: Env): (r: seq<Effect>)
    ensures forall e :: e in r ==> e.Failed? || e.step.TagVersion?
    ensures !Flag(inputs, "sync-semver-tags") ==> r == []
    ensures Flag(inputs, "sync-semver-tags") && parseVersion(version).None? ==>
      r == [Failed(Release.TagsFailure + NullVersionMessage)]
    ensures |Failures(r)| <= 1
  {
    if !Flag(inputs, "sync-semver-tags") then []
    else
      match parseVersion(version)
      case None =>
        assert Failures([Failed(Release.TagsFailure + NullVersionMessage)][1..]) == [];
        [Failed(Release.TagsFailure + NullVersionMessage)]
      case Some(v) => Release.TagAll(ConditionalTags(v), env)
  }

  /** The release PATCH; a failure only sets failed. */
  function Patch(meta: ReleaseMeta, env: Env): (r: seq<Effect>)
    ensures |r| > 0 && r[0] == Attempt(PatchRelease(meta.version, meta.id))
    ensures forall e :: e in r ==> e.Failed? || e == Attempt(PatchRelease(meta.version, meta.id))
    ensures Failures(r) == [] <==> env(PatchRelease(meta.version, meta.id)).Ok?
    ensures env(PatchRelease(meta.version, meta.id)).Err? ==>
      Failures(r) == [Release.ReleaseFailure + env(PatchRelease(meta.version, meta.id)).message]
  {
    var patch := PatchRelease(meta.version, meta.id);
    match env(patch)
    case Ok(_) => [Attempt(patch)]
    case Err(m) =>
      var tail := [Failed(Release.ReleaseFailure + m)];
      assert [Attempt(patch), Failed(Release.ReleaseFailure + m)][1..] == tail;
      assert tail[1..] == [];
      assert Failures(tail) == [Release.ReleaseFailure + m];
      [Attempt(patch), Failed(Release.ReleaseFailure + m)]
  }

  /** Delete the draft release of a pull request closed without merging; a
      rejection sets failed with the error itself. */
  function Discard(repo: Release.Repo, meta: ReleaseMeta, env: Env): (r: Run)
    ensures r.exit == Done
    ensures Attempts(r.effects) == [DeleteRelease(repo.owner, repo.name, meta.id)]
    ensures Failures(r.effects) != [] <==> env(DeleteRelease(repo.owner, repo.name, meta.id)).Err?
  {
    var discard := DeleteRelease(repo.owner, repo.name, meta.id);
    match env(discard)
    case Err(m) =>
      var tail := [Failed(m)];
      assert [Attempt(discard), Failed(m)][1..] == tail;
      assert tail[1..] == [];
      assert Attempts(tail) == [];
      Run([Attempt(discard), Failed(m)], Done)
    case Ok(_) => Run([Attempt(discard)], Done)
  }

  /** A merged pull request: publish (a failure ends the run), then the tags
      and the PATCH, each of which only sets failed. */
  function Publish(inputs: Inputs, meta: ReleaseMeta, parseVersion: string -> Option<Version>, env: Env): (r: Run)
    ensures r.exit == Done || r.exit.Threw?
    ensures forall e :: e in r.effects && e.Attempt? ==> e.step.Spawn? || e.step.TagVersion? || e.step.PatchRelease?
  {
    var publish := NpmBlock(inputs, meta, env);
    if publish.exit.Threw? then publish
    else Run(publish.effects + ConditionalTagging(inputs, meta.version, parseVersion, env) + Patch(meta, env), Done)
  }

  /** The exported function of the earlier entry point. */
  function LegacyRelease(ev: Release.Event, repo: Release.Repo, inputs: Inputs,
                         parseMeta: string -> Option<ReleaseMeta>, parseVersion: string -> Option<Version>,
                         env: Env): (r: Run)
    ensures r.exit == Skipped <==> !Release.IsReleasePr(ev)
    ensures r.exit == BadMeta <==> Release.IsReleasePr(ev) && Release.MetaOf(ev.pr, parseMeta).None?
    ensures r.exit == Skipped || r.exit == BadMeta ==> r.effects == []
    ensures forall e :: e in r.effects && e.Attempt? ==> !e.step.RevertCommit? && !e.step.NotifyLinkedIssues?
  {
    if !Release.IsReleasePr(ev) then Run([], Skipped)
    else
      match Release.MetaOf(ev.pr, parseMeta)
      case None => Run([], BadMeta)
      case Some(meta) => Settle(ev.pr.merged, repo, inputs, meta, parseVersion, env)
  }

  /** Everything after the meta has been read: publish a merged pull request,
      discard the draft of any other. Nothing is reverted and no issue is
      notified. */
  function Settle(merged: bool, repo: Release.Repo, inputs: Inputs, meta: ReleaseMeta,
                  parseVersion: string -> Option<Version>, env: Env): (r: Run)
    ensures r.exit == Done || r.exit.Threw?
    ensures !merged ==> r.exit == Done && Attempts(r.effects) == [DeleteRelease(repo.owner, repo.name, meta.id)]
    ensures forall e :: e in r.effects && e.Attempt? ==> !e.step.RevertCommit? && !e.step.NotifyLinkedIssues?
  {
    if merged then Publish(inputs, meta, parseVersion, env)
    else Discard(repo, meta, env)
  }
}
