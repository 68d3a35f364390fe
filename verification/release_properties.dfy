/**
 What `src/release.js` promises about its outcome-driven control flow, proved
 of the `Release.Release` model for every environment.
 */
module ReleaseProperties {
  import opened JsText
  import opened Workflow
  import opened Semver
  import opened Release

  lemma Unfold(ev: Event, repo: Repo, inputs: Inputs, parseMeta: string -> Option<ReleaseMeta>,
                parseVersion: string -> Option<Version>, env: Env, meta: ReleaseMeta)
    requires IsReleasePr(ev) && MetaOf(ev.pr, parseMeta) == Some(meta)
    ensures Release.Release(ev, repo, inputs, parseMeta, parseVersion, env)
         == Finalise(ev.pr, repo, inputs, meta, parseVersion, env)
  {
  }

  /** Nothing but a warning unless the action is `closed`, the author is the
      bot and the title carries the prefix. */
  lemma GuardSkips(ev: Event, repo: Repo, inputs: Inputs, parseMeta: string -> Option<ReleaseMeta>,
                   parseVersion: string -> Option<Version>, env: Env)
    requires ev.action != "closed" || ev.pr.login != BotLogin || !StartsWith(ev.pr.title, PrTitlePrefix)
    ensures Release.Release(ev, repo, inputs, parseMeta, parseVersion, env) == Run([], Skipped)
  {
  }

  /** A pull request that was closed without merging: the branch and the draft
      release are deleted and nothing is published, tagged or patched; only a
      failed deletion of the release sets failed. */
  lemma NotMergedDiscards(ev: Event, repo: Repo, inputs: Inputs, parseMeta: string -> Option<ReleaseMeta>,
                          parseVersion: string -> Option<Version>, env: Env, meta: ReleaseMeta)
    requires IsReleasePr(ev) && MetaOf(ev.pr, parseMeta) == Some(meta) && !ev.pr.merged
    ensures var r := Release.Release(ev, repo, inputs, parseMeta, parseVersion, env);
      && Attempts(r.effects) == [DeleteBranch(ReleaseBranch(meta.version)), DeleteRelease(repo.owner, repo.name, meta.id)]
      && r.exit == Done
      && (Failures(r.effects) != [] <==> env(DeleteRelease(repo.owner, repo.name, meta.id)).Err?)
  {
    Unfold(ev, repo, inputs, parseMeta, parseVersion, env, meta);
    var head := [Attempt(DeleteBranch(ReleaseBranch(meta.version)))];
    var d := Discard(repo, meta, env);
    AttemptsAppend(head, d.effects);
    FailuresAppend(head, d.effects);
    var del := DeleteRelease(repo.owner, repo.name, meta.id);
    assert Attempts(d.effects) == [del] by {
      assert d.effects[0] == Attempt(del);
      assert Attempts(d.effects[1..]) == [];
    }
    assert (Failures(d.effects) != []) <==> env(del).Err? by {
      assert d.effects[1..] == (if env(del).Err? then [d.effects[1]] else []);
      if env(del).Err? {
        assert Failures(d.effects[1..]) == [d.effects[1].message] + Failures(d.effects[2..]);
      }
    }
  }

  /** The artifact is uploaded only after a successful zip, a zip failure is
      the only thing that sets failed, and only the upload can throw. */
  lemma ArtifactOutcomes(inputs: Inputs, releaseId: string, env: Env)
    ensures var r := ReleaseArtifact(inputs, releaseId, env);
      var folder := Input(inputs, "release-artifact-build-folder");
      && (Attempt(UploadAsset(releaseId)) in r.effects <==> Truthy(folder) && env(ZipFolder(folder.value)).Ok?)
      && (|Failures(r.effects)| > 0 <==> Truthy(folder) && env(ZipFolder(folder.value)).Err?)
      && (r.exit.Threw? ==> Attempt(UploadAsset(releaseId)) in r.effects && env(UploadAsset(releaseId)) == Err(r.exit.message))
  {
    var r := ReleaseArtifact(inputs, releaseId, env);
    var folder := Input(inputs, "release-artifact-build-folder");
    if Truthy(folder) {
      var zip := ZipFolder(folder.value);
      if env(zip).Err? {
        assert Failed(ZipFailure + env(zip).message) in r.effects;
      } else {
        FailuresOfAttempts(r.effects);
      }
    }
  }

  /** `env` and `env'` differ at most on commands and on the notification. */
  ghost predicate AgreeBeyondWarnings(env: Env, env': Env) {
    forall t: Step :: t.Spawn? || t.NotifyLinkedIssues? || env(t) == env'(t)
  }

  lemma SyncAgrees(inputs: Inputs, version: string, parseVersion: string -> Option<Version>, env: Env, env': Env)
    requires AgreeBeyondWarnings(env, env')
    ensures SyncSemverTags(inputs, version, parseVersion, env) == SyncSemverTags(inputs, version, parseVersion, env')
  {
    match parseVersion(version)
    case None =>
    case Some(v) => SequenceLocal(TagSteps(SyncTags(v)), env, env');
  }

  lemma ReleaseAndArtifactAgree(pr: PullRequest, inputs: Inputs, meta: ReleaseMeta, shouldRevert: bool, env: Env, env': Env)
    requires AgreeBeyondWarnings(env, env')
    ensures ReleaseAndArtifact(pr, inputs, meta, shouldRevert, env) == ReleaseAndArtifact(pr, inputs, meta, shouldRevert, env')
  {
    assert env(RevertCommit(pr.baseRef)) == env'(RevertCommit(pr.baseRef));
    assert PublishRelease(pr, inputs, meta, shouldRevert, env) == PublishRelease(pr, inputs, meta, shouldRevert, env') by {
      assert env(PatchRelease(meta.version, meta.id)) == env'(PatchRelease(meta.version, meta.id));
    }
    assert ReleaseArtifact(inputs, meta.id, env) == ReleaseArtifact(inputs, meta.id, env') by {
      assert env(UploadAsset(meta.id)) == env'(UploadAsset(meta.id));
      var folder := Input(inputs, "release-artifact-build-folder");
      if Truthy(folder) {
        assert env(ZipFolder(folder.value)) == env'(ZipFolder(folder.value));
      }
    }
  }

  lemma PublishAgrees(pr: PullRequest, inputs: Inputs, meta: ReleaseMeta,
                      parseVersion: string -> Option<Version>, env: Env, env': Env)
    requires AgreeBeyondWarnings(env, env')
    ensures Publish(pr, inputs, meta, parseVersion, env) == Publish(pr, inputs, meta, parseVersion, env')
  {
    SequenceLocal(PublishSteps(inputs, meta), env, env');
    assert env(RevertCommit(pr.baseRef)) == env'(RevertCommit(pr.baseRef));
    SyncAgrees(inputs, meta.version, parseVersion, env, env');
    ReleaseAndArtifactAgree(pr, inputs, meta, Flag(inputs, "revert-commit-after-failure"), env, env');
  }

  /** The outcome of the branch deletion and of the issue notification never
      changes the run: their failures are only logged. */
  lemma OnlyWarnings(ev: Event, repo: Repo, inputs: Inputs, parseMeta: string -> Option<ReleaseMeta>,
                     parseVersion: string -> Option<Version>, env: Env, env': Env)
    requires forall t: Step :: t.Spawn? || t.NotifyLinkedIssues? || env(t) == env'(t)
    ensures Release.Release(ev, repo, inputs, parseMeta, parseVersion, env)
         == Release.Release(ev, repo, inputs, parseMeta, parseVersion, env')
  {
    if IsReleasePr(ev) && MetaOf(ev.pr, parseMeta).Some? {
      var meta := MetaOf(ev.pr, parseMeta).value;
      Unfold(ev, repo, inputs, parseMeta, parseVersion, env, meta);
      Unfold(ev, repo, inputs, parseMeta, parseVersion, env', meta);
      PublishAgrees(ev.pr, inputs, meta, parseVersion, env, env');
      assert env(DeleteRelease(repo.owner, repo.name, meta.id)) == env'(DeleteRelease(repo.owner, repo.name, meta.id));
    }
  }

  /** Without an npm token the publish step is skipped. */
  lemma NoTokenNoPublish(pr: PullRequest, inputs: Inputs, meta: ReleaseMeta,
                         parseVersion: string -> Option<Version>, env: Env)
    requires !Truthy(Input(inputs, "npm-token"))
    ensures forall s :: s in Attempts(Publish(pr, inputs, meta, parseVersion, env).effects) ==> !s.PublishToNpm?
  {
  }

  /** A merged pull request: after the branch deletion, the run is the
      publishing branch. */
  lemma MergedRun(ev: Event, repo: Repo, inputs: Inputs, parseMeta: string -> Option<ReleaseMeta>,
                  parseVersion: string -> Option<Version>, env: Env, meta: ReleaseMeta)
    requires IsReleasePr(ev) && MetaOf(ev.pr, parseMeta) == Some(meta) && ev.pr.merged
    ensures var p := Publish(ev.pr, inputs, meta, parseVersion, env);
      Release.Release(ev, repo, inputs, parseMeta, parseVersion, env)
        == Run([Attempt(DeleteBranch(ReleaseBranch(meta.version)))] + p.effects, p.exit)
  {
    Unfold(ev, repo, inputs, parseMeta, parseVersion, env, meta);
  }

  /** A failed publish: the commit is reverted exactly when the revert flag is
      set, failed is set (unless the revert itself throws), and no tag or
      release PATCH follows. */
  lemma PublishFailureStops(pr: PullRequest, inputs: Inputs, meta: ReleaseMeta,
                            parseVersion: string -> Option<Version>, env: Env, m: string)
    requires Truthy(Input(inputs, "npm-token"))
    requires env(PublishSteps(inputs, meta)[0]) == Err(m)
    ensures var r := Publish(pr, inputs, meta, parseVersion, env);
      && (Attempt(RevertCommit(pr.baseRef)) in r.effects <==> Flag(inputs, "revert-commit-after-failure"))
      && (r.exit == Done <==> Failed(PublishFailure + m) in r.effects)
      && (r.exit.Threw? ==> env(RevertCommit(pr.baseRef)).Err?)
      && forall e :: e in r.effects && e.Attempt? ==> !e.step.TagVersion? && !e.step.PatchRelease?
  {
    var steps := PublishSteps(inputs, meta);
    var p := Sequence(steps, env);
    assert p == Progress([Attempt(steps[0])], Some(m));
  }

  /** When the npm publication succeeds, the run is the publication, then the
      tagging, then the release and its artifact. */
  lemma PublishedRun(pr: PullRequest, inputs: Inputs, meta: ReleaseMeta,
                     parseVersion: string -> Option<Version>, env: Env)
    requires forall s :: s in PublishSteps(inputs, meta) ==> env(s).Ok?
    ensures var rest := ReleaseAndArtifact(pr, inputs, meta, Flag(inputs, "revert-commit-after-failure"), env);
      Publish(pr, inputs, meta, parseVersion, env)
        == Run(Sequence(PublishSteps(inputs, meta), env).effects
                 + SyncSemverTags(inputs, meta.version, parseVersion, env) + rest.effects, rest.exit)
  {
    var steps := PublishSteps(inputs, meta);
    assert forall i :: 0 <= i < |steps| ==> steps[i] in steps;
  }

  lemma NoTagsInPublication(inputs: Inputs, meta: ReleaseMeta, env: Env)
    ensures forall e :: e in Sequence(PublishSteps(inputs, meta), env).effects ==> !(e.Attempt? && e.step.TagVersion?)
  {
  }

  /** Synchronisation with every tag step succeeding attempts the three tags. */
  lemma SyncAttemptsAll(inputs: Inputs, version: string, parseVersion: string -> Option<Version>,
                        env: Env, v: Version)
    requires Flag(inputs, "sync-semver-tags") && parseVersion(version) == Some(v)
    requires forall t :: t in SyncTags(v) ==> env(TagVersion(t)).Ok?
    ensures SyncSemverTags(inputs, version, parseVersion, env) == AttemptAll(TagSteps(SyncTags(v)))
  {
    var tags := SyncTags(v);
    assert forall i :: 0 <= i < |tags| ==> tags[i] in tags;
  }

  /** With synchronisation on and every tag step succeeding, the tags moved are
      exactly `v{M}`, `v{M}.{m}` and `v{M}.{m}.{p}`, in that order. */
  lemma SyncedTags(pr: PullRequest, inputs: Inputs, meta: ReleaseMeta,
                   parseVersion: string -> Option<Version>, env: Env, v: Version)
    requires forall s :: s in PublishSteps(inputs, meta) ==> env(s).Ok?
    requires Flag(inputs, "sync-semver-tags") && parseVersion(meta.version) == Some(v)
    requires forall t :: t in SyncTags(v) ==> env(TagVersion(t)).Ok?
    ensures TaggedVersions(Publish(pr, inputs, meta, parseVersion, env).effects)
         == [MajorTag(v), MinorTag(v), PatchTag(v)]
  {
    var publish := Sequence(PublishSteps(inputs, meta), env).effects;
    var tagging := SyncSemverTags(inputs, meta.version, parseVersion, env);
    var rest := ReleaseAndArtifact(pr, inputs, meta, Flag(inputs, "revert-commit-after-failure"), env);
    PublishedRun(pr, inputs, meta, parseVersion, env);
    assert forall e :: e in publish ==> !(e.Attempt? && e.step.TagVersion?) by {
      NoTagsInPublication(inputs, meta, env);
    }
    assert forall e :: e in rest.effects ==> !(e.Attempt? && e.step.TagVersion?);
    SyncAttemptsAll(inputs, meta.version, parseVersion, env, v);
    TaggedMiddle(publish, tagging, rest.effects);
    TaggedVersionsOfTagSteps(SyncTags(v));
  }

  /** A failed tag sets failed, yet the release PATCH is still attempted. */
  lemma TagFailureStillPatches(pr: PullRequest, inputs: Inputs, meta: ReleaseMeta,
                               parseVersion: string -> Option<Version>, env: Env, v: Version, k: nat)
    requires forall s :: s in PublishSteps(inputs, meta) ==> env(s).Ok?
    requires Flag(inputs, "sync-semver-tags") && parseVersion(meta.version) == Some(v)
    requires k < 3 && env(TagVersion(SyncTags(v)[k])).Err?
    ensures var r := Publish(pr, inputs, meta, parseVersion, env);
      && (exists m :: Failed(TagsFailure + m) in r.effects)
      && Attempt(PatchRelease(meta.version, meta.id)) in r.effects
  {
    var shouldRevert := Flag(inputs, "revert-commit-after-failure");
    var publish := Sequence(PublishSteps(inputs, meta), env).effects;
    var tagging := SyncSemverTags(inputs, meta.version, parseVersion, env);
    var m :| Failed(TagsFailure + m) in tagging;
    var rest := ReleaseAndArtifact(pr, inputs, meta, shouldRevert, env);
    assert Publish(pr, inputs, meta, parseVersion, env).effects == publish + tagging + rest.effects;
    assert rest.effects[0] in rest.effects;
  }

  /** A failed release PATCH: the commit is reverted exactly when the revert
      flag is set, failed is set (unless the revert itself throws), and no
      issue is notified. */
  lemma PatchFailureRecovers(pr: PullRequest, inputs: Inputs, meta: ReleaseMeta,
                             parseVersion: string -> Option<Version>, env: Env, m: string)
    requires forall s :: s in PublishSteps(inputs, meta) ==> env(s).Ok?
    requires env(PatchRelease(meta.version, meta.id)) == Err(m)
    ensures var r := Publish(pr, inputs, meta, parseVersion, env);
      && (Attempt(RevertCommit(pr.baseRef)) in r.effects <==> Flag(inputs, "revert-commit-after-failure"))
      && (r.exit.Threw? || Failed(ReleaseFailure + m) in r.effects)
      && forall e :: e in r.effects && e.Attempt? ==> !e.step.NotifyLinkedIssues?
  {
    var shouldRevert := Flag(inputs, "revert-commit-after-failure");
    var publish := Sequence(PublishSteps(inputs, meta), env).effects;
    var tagging := SyncSemverTags(inputs, meta.version, parseVersion, env);
    var rest := ReleaseAndArtifact(pr, inputs, meta, shouldRevert, env);
    PublishedRun(pr, inputs, meta, parseVersion, env);
    assert !exists e :: e in rest.effects && e.Attempt? && e.step.NotifyLinkedIssues?;
    RecoveryAfterTags(publish, tagging, rest, Attempt(RevertCommit(pr.baseRef)), Failed(ReleaseFailure + m));
  }

  /** The revert, the failure and the absence of a notification in the release
      part carry over to the whole run, since the publication and the tagging
      hold none of them. */
  lemma RecoveryAfterTags(publish: seq<Effect>, tagging: seq<Effect>, rest: Run, revert: Effect, failed: Effect)
    requires forall e :: e in publish ==> e.Attempt? && e.step.PublishToNpm?
    requires forall e :: e in tagging ==> e.Failed? || e.step.TagVersion?
    requires revert.Attempt? && revert.step.RevertCommit?
    requires forall e :: e in rest.effects && e.Attempt? ==> !e.step.NotifyLinkedIssues?
    ensures var all := publish + tagging + rest.effects;
      && (revert in all <==> revert in rest.effects)
      && (failed in rest.effects ==> failed in all)
      && forall e :: e in all && e.Attempt? ==> !e.step.NotifyLinkedIssues?
  {
  }

  /** Of the publication and the tagging, no attempt is a revert or a
      notification, so those come from the release part alone. */
  lemma LaterStepsOnly(publish: seq<Effect>, tagging: seq<Effect>, rest: seq<Effect>)
    requires forall e :: e in publish ==> e.Attempt? && e.step.PublishToNpm?
    requires forall e :: e in tagging ==> e.Failed? || e.step.TagVersion?
    ensures forall e: Effect :: e.Attempt? && (e.step.RevertCommit? || e.step.NotifyLinkedIssues?) ==>
      (e in publish + tagging + rest <==> e in rest)
  {
  }

  /** Linked issues are notified exactly when the PATCH succeeded and the
      notify flag is set. */
  lemma NotifyWhenPatched(pr: PullRequest, inputs: Inputs, meta: ReleaseMeta,
                          parseVersion: string -> Option<Version>, env: Env)
    requires forall s :: s in PublishSteps(inputs, meta) ==> env(s).Ok?
    ensures (exists e :: e in Publish(pr, inputs, meta, parseVersion, env).effects
               && e.Attempt? && e.step.NotifyLinkedIssues?)
      <==> env(PatchRelease(meta.version, meta.id)).Ok? && Flag(inputs, "notify-linked-issues")
  {
    var shouldRevert := Flag(inputs, "revert-commit-after-failure");
    var publish := Sequence(PublishSteps(inputs, meta), env).effects;
    var tagging := SyncSemverTags(inputs, meta.version, parseVersion, env);
    var rest := ReleaseAndArtifact(pr, inputs, meta, shouldRevert, env);
    PublishedRun(pr, inputs, meta, parseVersion, env);
    LaterStepsOnly(publish, tagging, rest.effects);
  }
}
