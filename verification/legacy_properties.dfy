/**
 What the earlier entry point (`release.js`) promises, proved of the
 `LegacyRelease` model for every environment.
 */
module LegacyProperties {
  import opened JsText
  import opened Workflow
  import opened Semver
  import Release
  import opened LegacyRelease

  /** A pull request closed without merging: only the draft release is
      deleted, and failed is set exactly when that deletion is rejected. */
  lemma LegacyNotMergedDiscards(ev: Release.Event, repo: Release.Repo, inputs: Inputs,
                                parseMeta: string -> Option<ReleaseMeta>, parseVersion: string -> Option<Version>,
                                env: Env, meta: ReleaseMeta)
    requires Release.IsReleasePr(ev) && Release.MetaOf(ev.pr, parseMeta) == Some(meta) && !ev.pr.merged
    ensures var r := LegacyRelease.LegacyRelease(ev, repo, inputs, parseMeta, parseVersion, env);
      && Attempts(r.effects) == [DeleteRelease(repo.owner, repo.name, meta.id)]
      && r.exit == Done
      && (Failures(r.effects) != [] <==> env(DeleteRelease(repo.owner, repo.name, meta.id)).Err?)
  {
  }

  /** A merged pull request runs the publishing branch. */
  lemma LegacyMergedRun(ev: Release.Event, repo: Release.Repo, inputs: Inputs,
                        parseMeta: string -> Option<ReleaseMeta>, parseVersion: string -> Option<Version>,
                        env: Env, meta: ReleaseMeta)
    requires Release.IsReleasePr(ev) && Release.MetaOf(ev.pr, parseMeta) == Some(meta) && ev.pr.merged
    ensures LegacyRelease.LegacyRelease(ev, repo, inputs, parseMeta, parseVersion, env)
         == Publish(inputs, meta, parseVersion, env)
  {
  }

  /** With both tokens the password is fetched from the optic URL followed by
      the token, and `npm publish --otp <password> --tag <npmTag>` follows. */
  lemma OtpPublish(inputs: Inputs, meta: ReleaseMeta, parseVersion: string -> Option<Version>, env: Env, otp: string)
    requires Truthy(Input(inputs, "npm-token")) && Truthy(Input(inputs, "optic-token"))
    requires env(OtpRequest(meta, inputs["optic-token"])) == Ok(otp)
    ensures var r := Publish(inputs, meta, parseVersion, env);
      |r.effects| >= 2
      && r.effects[0] == Attempt(Spawn("curl", ["-s", Str(meta.opticUrl) + inputs["optic-token"]]))
      && r.effects[1] == Attempt(Spawn("npm", ["publish", "--otp", otp, "--tag", Str(meta.npmTag)]))
  {
    var publish := NpmBlock(inputs, meta, env);
    assert |publish.effects| == 2;
  }

  /** With an npm token but no optic token, the first step is
      `npm publish --tag <npmTag>`. */
  lemma PlainPublish(inputs: Inputs, meta: ReleaseMeta, parseVersion: string -> Option<Version>, env: Env)
    requires Truthy(Input(inputs, "npm-token")) && !Truthy(Input(inputs, "optic-token"))
    ensures var r := Publish(inputs, meta, parseVersion, env);
      |r.effects| >= 1
      && r.effects[0] == Attempt(Spawn("npm", ["publish", "--tag", Str(meta.npmTag)]))
      && (forall e :: e in r.effects && e.Attempt? ==> e.step != OtpRequest(meta, ""))
      && (forall e :: e in r.effects && e.Attempt? && e.step.Spawn? ==> e.step.command != "curl")
  {
    var publish := NpmBlock(inputs, meta, env);
    assert |publish.effects| == 1;
    AfterPublishNoSpawn(inputs, meta, parseVersion, env);
  }

  /** The tag and PATCH steps that follow publishing never spawn a command. */
  lemma AfterPublishNoSpawn(inputs: Inputs, meta: ReleaseMeta, parseVersion: string -> Option<Version>, env: Env)
    ensures var rest := ConditionalTagging(inputs, meta.version, parseVersion, env) + Patch(meta, env);
      forall e :: e in rest && e.Attempt? ==> !e.step.Spawn?
  {
    var rest := ConditionalTagging(inputs, meta.version, parseVersion, env) + Patch(meta, env);
    assert forall e :: e in rest && e.Attempt? ==> !e.step.Spawn?;
  }

  /** Without an npm token no command runs at all. */
  lemma NoTokenNoCommand(inputs: Inputs, meta: ReleaseMeta, parseVersion: string -> Option<Version>, env: Env)
    requires !Truthy(Input(inputs, "npm-token"))
    ensures var r := Publish(inputs, meta, parseVersion, env);
      r.exit == Done && forall e :: e in r.effects && e.Attempt? ==> !e.step.Spawn?
  {
    AfterPublishNoSpawn(inputs, meta, parseVersion, env);
  }

  /** A failed `curl` or `npm publish` is not caught: the run throws its
      message, and neither a tag nor the release PATCH is attempted. */
  lemma PublishFailureThrows(inputs: Inputs, meta: ReleaseMeta, parseVersion: string -> Option<Version>, env: Env)
    requires NpmBlock(inputs, meta, env).exit.Threw?
    ensures var r := Publish(inputs, meta, parseVersion, env);
      && r.exit.Threw?
      && Failures(r.effects) == []
      && forall e :: e in r.effects ==> e.Attempt? && e.step.Spawn?
  {
    var publish := NpmBlock(inputs, meta, env);
    assert forall i :: 0 <= i < |publish.effects| ==> publish.effects[i] in publish.effects;
    FailuresOfAttempts(publish.effects);
  }

  /** When publishing succeeded, the run ends normally with the tags and the
      PATCH after the npm commands. */
  lemma PublishedLegacyRun(inputs: Inputs, meta: ReleaseMeta, parseVersion: string -> Option<Version>, env: Env)
    requires NpmBlock(inputs, meta, env).exit == Done
    ensures Publish(inputs, meta, parseVersion, env)
         == Run(NpmBlock(inputs, meta, env).effects
                  + ConditionalTagging(inputs, meta.version, parseVersion, env) + Patch(meta, env), Done)
  {
  }

  /** With synchronisation on and every tag step succeeding, the tags moved are
      exactly the non-zero ones: `v{M}` unless the major is 0, then `v{M}.{m}`
      unless the minor is 0. */
  lemma LegacyTags(inputs: Inputs, meta: ReleaseMeta, parseVersion: string -> Option<Version>, env: Env, v: Version)
    requires NpmBlock(inputs, meta, env).exit == Done
    requires Flag(inputs, "sync-semver-tags") && parseVersion(meta.version) == Some(v)
    requires forall t :: t in ConditionalTags(v) ==> env(TagVersion(t)).Ok?
    ensures var tagged := TaggedVersions(Publish(inputs, meta, parseVersion, env).effects);
      && tagged == ConditionalTags(v)
      && (MajorTag(v) in tagged <==> v.major != 0) && (MinorTag(v) in tagged <==> v.minor != 0)
  {
    TaggedLegacyRun(inputs, meta, parseVersion, env);
    ConditionalAttemptsAll(inputs, meta.version, parseVersion, env, v);
    Release.TaggedVersionsOfTagSteps(ConditionalTags(v));
  }

  /** Of a run that published, only the tagging block moves tags. */
  lemma TaggedLegacyRun(inputs: Inputs, meta: ReleaseMeta, parseVersion: string -> Option<Version>, env: Env)
    requires NpmBlock(inputs, meta, env).exit == Done
    ensures TaggedVersions(Publish(inputs, meta, parseVersion, env).effects)
         == TaggedVersions(ConditionalTagging(inputs, meta.version, parseVersion, env))
  {
    var publish := NpmBlock(inputs, meta, env).effects;
    var tagging := ConditionalTagging(inputs, meta.version, parseVersion, env);
    PublishedLegacyRun(inputs, meta, parseVersion, env);
    TaggedMiddle(publish, tagging, Patch(meta, env));
  }

  /** Synchronisation with every tag step succeeding attempts the conditional
      tags. */
  lemma ConditionalAttemptsAll(inputs: Inputs, version: string, parseVersion: string -> Option<Version>,
                               env: Env, v: Version)
    requires Flag(inputs, "sync-semver-tags") && parseVersion(version) == Some(v)
    requires forall t :: t in ConditionalTags(v) ==> env(TagVersion(t)).Ok?
    ensures ConditionalTagging(inputs, version, parseVersion, env) == AttemptAll(Release.TagSteps(ConditionalTags(v)))
  {
    var tags := ConditionalTags(v);
    assert forall i :: 0 <= i < |tags| ==> tags[i] in tags;
  }

  /** A failed tag sets failed, yet the release PATCH is still attempted and
      the run ends normally. */
  lemma LegacyTagFailureStillPatches(inputs: Inputs, meta: ReleaseMeta, parseVersion: string -> Option<Version>,
                                     env: Env, v: Version, k: nat)
    requires NpmBlock(inputs, meta, env).exit == Done
    requires Flag(inputs, "sync-semver-tags") && parseVersion(meta.version) == Some(v)
    requires k < |ConditionalTags(v)| && env(TagVersion(ConditionalTags(v)[k])).Err?
    ensures var r := Publish(inputs, meta, parseVersion, env);
      && r.exit == Done
      && (exists m :: Failed(Release.TagsFailure + m) in r.effects)
      && Attempt(PatchRelease(meta.version, meta.id)) in r.effects
  {
    var publish := NpmBlock(inputs, meta, env).effects;
    var tagging := ConditionalTagging(inputs, meta.version, parseVersion, env);
    var m :| Failed(Release.TagsFailure + m) in tagging;
    var patch := Patch(meta, env);
    PublishedLegacyRun(inputs, meta, parseVersion, env);
    assert patch[0] in patch;
  }

  /** A rejected PATCH only sets failed with its message. */
  lemma LegacyPatchFailure(inputs: Inputs, meta: ReleaseMeta, parseVersion: string -> Option<Version>, env: Env, m: string)
    requires NpmBlock(inputs, meta, env).exit == Done
    requires env(PatchRelease(meta.version, meta.id)) == Err(m)
    ensures var r := Publish(inputs, meta, parseVersion, env);
      r.exit == Done && Failed(Release.ReleaseFailure + m) in r.effects
  {
    PublishedLegacyRun(inputs, meta, parseVersion, env);
    var publish := NpmBlock(inputs, meta, env).effects;
    var tagging := ConditionalTagging(inputs, meta.version, parseVersion, env);
    var patch := Patch(meta, env);
    assert Release.ReleaseFailure + m in Failures(patch);
    FailuresAppend(publish + tagging, patch);
  }
}
