/**
 The hand-off between the two halves of the action: the pull request that
 `src/openPr.js` opens is the event `src/release.js` later receives when it is
 closed. Its title must pass the release guard, its body must give back the
 release meta, and the branch deleted at release time should be the branch
 pushed when the pull request was opened.
 */
module Pipeline {
  import opened JsText
  import opened Workflow
  import opened Semver
  import Release
  import opened OpenPr
  import opened OpenPrProperties

  /** The `closed` event of the pull request a `CreatePullRequest` step opened,
      as the bot that authored it. */
  function ClosedEvent(create: Step, merged: bool): (ev: Release.Event)
    requires create.CreatePullRequest?
    ensures ev.action == "closed" && ev.pr.login == BotLogin && ev.pr.title == create.title
    ensures ev.pr.body == Some(create.body) && ev.pr.merged == merged && ev.pr.baseRef == create.base
  {
    Release.Event("closed", Release.PullRequest(BotLogin, create.title, Some(create.body), merged, create.base))
  }

  /** Every title the opening half gives its pull request passes the guard of
      the release half once the bot's pull request is closed. */
  lemma TitlePassesGuard(branch: string, body: string, merged: bool, baseRef: string)
    ensures Release.IsReleasePr(ClosedEvent(CreatePullRequest("refs/heads/" + branch, baseRef, PrTitle(branch), body), merged))
  {
  }

  /** A pull request whose title lacks the prefix is skipped, however it was
      opened. */
  lemma OtherTitlesSkipped(ev: Release.Event, repo: Release.Repo, inputs: Inputs,
                           parseMeta: string -> Option<ReleaseMeta>, parseVersion: string -> Option<Version>, env: Env)
    requires !StartsWith(ev.pr.title, PrTitlePrefix)
    ensures Release.Release(ev, repo, inputs, parseMeta, parseVersion, env) == Run([], Skipped)
  {
  }

  /** `'<'` opens both tags and occurs nowhere else in them. */
  lemma TagShapes()
    ensures |Release.OpenTag| == 14 && |Release.CloseTag| == 15
    ensures Release.OpenTag[0] == '<' && forall i :: 0 < i < |Release.OpenTag| ==> Release.OpenTag[i] != '<'
    ensures Release.CloseTag[0] == '<' && forall i :: 0 < i < |Release.CloseTag| ==> Release.CloseTag[i] != '<'
  {
  }

  /** In `p + OpenTag + rest`, with no opening tag inside `p`, the first
      opening tag is the one after `p`. */
  lemma FirstOpenTag(p: string, rest: string)
    requires !Contains(p, Release.OpenTag)
    ensures IndexOf(p + Release.OpenTag + rest, Release.OpenTag) == |p|
  {
    var body := p + Release.OpenTag + rest;
    var t := Release.OpenTag;
    TagShapes();
    assert OccursAt(body, t, |p|) by {
      assert body[|p|..|p| + |t|] == t;
    }
    forall i | 0 <= i < |p|
      ensures !OccursAt(body, t, i)
    {
      if i + |t| <= |p| {
        assert body[i..i + |t|] == p[i..i + |t|];
        assert !OccursAt(p, t, i);
      } else {
        // The tag would have to start before `p` ends and cover the '<' at |p|.
        Mismatch(body, t, i, |p|);
      }
    }
  }

  /** A window whose `j`-th character differs from the pattern's is not an
      occurrence. */
  lemma Mismatch(s: string, t: string, i: int, j: int)
    requires 0 <= i <= j < |s| && j - i < |t| && s[j] != t[j - i]
    ensures !OccursAt(s, t, i)
  {
    if i + |t| <= |s| {
      assert s[i..i + |t|][j - i] == s[j];
    }
  }

  /** In `front + CloseTag + s`, with no closing tag inside `s`, the last
      closing tag is the one before `s`. */
  lemma LastCloseTag(front: string, s: string)
    requires !Contains(s, Release.CloseTag)
    ensures LastIndexOf(front + Release.CloseTag + s, Release.CloseTag) == |front|
  {
    var body := front + Release.CloseTag + s;
    var t := Release.CloseTag;
    assert OccursAt(body, t, |front|) by {
      assert body[|front|..|front| + |t|] == t;
    }
    forall j | j > |front|
      ensures !OccursAt(body, t, j)
    {
      NoCloseTagAfter(front, s, j);
    }
  }

  lemma NoCloseTagAfter(front: string, s: string, j: int)
    requires !Contains(s, Release.CloseTag) && j > |front|
    ensures !OccursAt(front + Release.CloseTag + s, Release.CloseTag, j)
  {
    var body := front + Release.CloseTag + s;
    var t := Release.CloseTag;
    TagShapes();
    if j >= |front| + |t| {
      var k := j - |front| - |t|;
      assert !OccursAt(s, t, k);
      if j + |t| <= |body| {
        assert body[j..j + |t|] == s[k..k + |t|];
      }
    } else {
      // The tag would start inside the closing tag, on a character that is
      // not '<'.
      assert body[j] == t[j - |front|];
      Mismatch(body, t, j, j);
    }
  }

  /** The release half reads back exactly what the opening half wrapped in
      the release-meta tags, whatever comes before the first opening tag and
      after the last closing tag, and whatever the meta text itself holds. */
  lemma MetaSliceOfWrapped(p: string, x: string, s: string)
    requires !Contains(p, Release.OpenTag) && !Contains(s, Release.CloseTag)
    ensures Release.MetaSlice(p + Release.OpenTag + x + Release.CloseTag + s) == x
  {
    var body := p + Release.OpenTag + x + Release.CloseTag + s;
    TagShapes();
    assert body == p + Release.OpenTag + (x + Release.CloseTag + s);
    FirstOpenTag(p, x + Release.CloseTag + s);
    LastCloseTag(p + Release.OpenTag + x, s);
    assert body[|p| + 14..|p| + 14 + |x|] == x;
  }

  /** The pull request the opening half creates, once closed, carries its
      meta back: the release half reads the same record the template was
      given. */
  lemma MetaRoundTrip(p: string, x: string, s: string, merged: bool, head: string, base: string, title: string,
                      parseMeta: string -> Option<ReleaseMeta>, meta: ReleaseMeta)
    requires !Contains(p, Release.OpenTag) && !Contains(s, Release.CloseTag)
    requires parseMeta(x) == Some(meta)
    ensures Release.MetaOf(ClosedEvent(CreatePullRequest(head, base, title, p + Release.OpenTag + x + Release.CloseTag + s), merged).pr,
                           parseMeta) == Some(meta)
  {
    MetaSliceOfWrapped(p, x, s);
  }

  /** The rendered body of a prepared run as the hand-off needs it: the
      serialised meta `x` between the tags, no opening tag in the text `p`
      before it and no closing tag in the text `s` after it. */
  ghost predicate WrapsMeta(body: string, p: string, x: string, s: string,
                      parseMeta: string -> Option<ReleaseMeta>, meta: ReleaseMeta) {
    && body == p + Release.OpenTag + x + Release.CloseTag + s
    && !Contains(p, Release.OpenTag) && !Contains(s, Release.CloseTag) && parseMeta(x) == Some(meta)
  }

  /** The first thing the release half does with the closed pull request of a
      prepared run is to delete `release/<version>`, the version being the one
      the opening half computed. */
  lemma ReleaseDeletesVersionBranch(req: Request, commitMessage: (Option<string>, string, Option<string>) -> string,
                                    parseVersion: string -> Option<Version>, render: TemplateArgs -> string, env: Env,
                                    id: string, merged: bool, parseMeta: string -> Option<ReleaseMeta>,
                                    repo: Release.Repo, inputs: Inputs, parseVersion': string -> Option<Version>, env': Env,
                                    p: string, x: string, s: string)
    requires Prepared(req, commitMessage, parseVersion, env, id)
    requires WrapsMeta(render(ArgsOf(req, commitMessage, parseVersion, env, id)), p, x, s, parseMeta,
                       ArgsOf(req, commitMessage, parseVersion, env, id).releaseMeta)
    ensures var create := CreateOf(req, commitMessage, parseVersion, render, env, id);
      var run := Release.Release(ClosedEvent(create, merged), repo, inputs, parseMeta, parseVersion', env');
      && Attempt(create) in OpenPr.OpenPr(req, commitMessage, parseVersion, render, env).effects
      && Release.IsReleasePr(ClosedEvent(create, merged))
      && Release.MetaOf(ClosedEvent(create, merged).pr, parseMeta) == Some(ArgsOf(req, commitMessage, parseVersion, env, id).releaseMeta)
      && run.exit != Skipped && run.exit != BadMeta
      && |run.effects| > 0
      && run.effects[0] == Attempt(DeleteBranch(ReleaseBranch(NewVersion(req.inputs, req.packageVersion.value))))
  {
    var args := ArgsOf(req, commitMessage, parseVersion, env, id);
    var create := CreateOf(req, commitMessage, parseVersion, render, env, id);
    PullRequestCarriesMeta(req, commitMessage, parseVersion, render, env, id);
    MetaRoundTrip(p, x, s, merged, create.head, create.base, create.title, parseMeta, args.releaseMeta);
    TitlePassesGuard(BranchOf(req), render(args), merged, req.baseRef);
  }

  /** Outside a monorepo the branch the release half deletes is the branch the
      opening half pushed. */
  lemma PushedBranchDeleted(req: Request, commitMessage: (Option<string>, string, Option<string>) -> string,
                            parseVersion: string -> Option<Version>, render: TemplateArgs -> string, env: Env,
                            id: string, merged: bool, parseMeta: string -> Option<ReleaseMeta>,
                            repo: Release.Repo, inputs: Inputs, parseVersion': string -> Option<Version>, env': Env,
                            p: string, x: string, s: string)
    requires Prepared(req, commitMessage, parseVersion, env, id)
    requires !Truthy(Input(req.inputs, "monorepo-package"))
    requires WrapsMeta(render(ArgsOf(req, commitMessage, parseVersion, env, id)), p, x, s, parseMeta,
                       ArgsOf(req, commitMessage, parseVersion, env, id).releaseMeta)
    ensures var create := CreateOf(req, commitMessage, parseVersion, render, env, id);
      var run := Release.Release(ClosedEvent(create, merged), repo, inputs, parseMeta, parseVersion', env');
      && create.head == "refs/heads/" + BranchOf(req)
      && |run.effects| > 0 && run.effects[0] == Attempt(DeleteBranch(BranchOf(req)))
  {
    ReleaseDeletesVersionBranch(req, commitMessage, parseVersion, render, env, id, merged, parseMeta,
                                repo, inputs, parseVersion', env', p, x, s);
  }

  /** For a monorepo package the opening half pushes `release/<package>-<version>`
      but the release half deletes `release/<version>`: the pushed branch is
      never the one deleted. */
  lemma MonorepoBranchMismatch(req: Request, commitMessage: (Option<string>, string, Option<string>) -> string,
                               parseVersion: string -> Option<Version>, render: TemplateArgs -> string, env: Env,
                               id: string, merged: bool, parseMeta: string -> Option<ReleaseMeta>,
                               repo: Release.Repo, inputs: Inputs, parseVersion': string -> Option<Version>, env': Env,
                               p: string, x: string, s: string)
    requires Prepared(req, commitMessage, parseVersion, env, id)
    requires Truthy(Input(req.inputs, "monorepo-package"))
    requires WrapsMeta(render(ArgsOf(req, commitMessage, parseVersion, env, id)), p, x, s, parseMeta,
                       ArgsOf(req, commitMessage, parseVersion, env, id).releaseMeta)
    ensures var create := CreateOf(req, commitMessage, parseVersion, render, env, id);
      var run := Release.Release(ClosedEvent(create, merged), repo, inputs, parseMeta, parseVersion', env');
      && |run.effects| > 0
      && run.effects[0] == Attempt(DeleteBranch(ReleaseBranch(NewVersion(req.inputs, req.packageVersion.value))))
      && ReleaseBranch(NewVersion(req.inputs, req.packageVersion.value)) != BranchOf(req)
      && Attempt(DeleteBranch(BranchOf(req))) !in run.effects
  {
    ReleaseDeletesVersionBranch(req, commitMessage, parseVersion, render, env, id, merged, parseMeta,
                                repo, inputs, parseVersion', env', p, x, s);
    var v := NewVersion(req.inputs, req.packageVersion.value);
    assert |ReleaseBranch(v)| < |BranchOf(req)|;
    var create := CreateOf(req, commitMessage, parseVersion, render, env, id);
    OnlyDeletion(ClosedEvent(create, merged), repo, inputs, parseMeta, parseVersion', env', BranchOf(req));
  }

  /** A branch other than `release/<meta version>` is never deleted by the
      release half. */
  lemma OnlyDeletion(ev: Release.Event, repo: Release.Repo, inputs: Inputs, parseMeta: string -> Option<ReleaseMeta>,
                     parseVersion: string -> Option<Version>, env: Env, branch: string)
    requires Release.IsReleasePr(ev) && Release.MetaOf(ev.pr, parseMeta).Some?
    requires branch != ReleaseBranch(Release.MetaOf(ev.pr, parseMeta).value.version)
    ensures Attempt(DeleteBranch(branch)) !in Release.Release(ev, repo, inputs, parseMeta, parseVersion, env).effects
  {
    var meta := Release.MetaOf(ev.pr, parseMeta).value;
    var run := Release.Release(ev, repo, inputs, parseMeta, parseVersion, env);
    assert run == Release.Finalise(ev.pr, repo, inputs, meta, parseVersion, env);
    FinaliseSpawnsOnce(ev.pr, repo, inputs, meta, parseVersion, env);
    assert DeleteBranch(branch) != DeleteBranch(ReleaseBranch(meta.version));
    forall k | 0 <= k < |run.effects|
      ensures run.effects[k] != Attempt(DeleteBranch(branch))
    {
    }
  }

  /** After the branch deletion the release half calls `run` itself no more:
      src/release.js calls `run` directly only once, at :55. Tagging, reverting
      and publishing still spawn commands inside their helpers, each modelled
      as one step of its own kind. */
  lemma FinaliseSpawnsOnce(pr: Release.PullRequest, repo: Release.Repo, inputs: Inputs, meta: ReleaseMeta,
                           parseVersion: string -> Option<Version>, env: Env)
    ensures var run := Release.Finalise(pr, repo, inputs, meta, parseVersion, env);
      forall k :: 0 < k < |run.effects| && run.effects[k].Attempt? ==> !run.effects[k].step.Spawn?
  {
    var rest := if pr.merged then Release.Publish(pr, inputs, meta, parseVersion, env) else Release.Discard(repo, meta, env);
    if pr.merged {
      PublishSpawnsNothing(pr, inputs, meta, parseVersion, env);
    }
    NoSpawnAfterHead(Attempt(DeleteBranch(ReleaseBranch(meta.version))), rest.effects);
  }

  lemma NoSpawnAfterHead(head: Effect, rest: seq<Effect>)
    requires forall e :: e in rest && e.Attempt? ==> !e.step.Spawn?
    ensures var all := [head] + rest;
      forall k :: 0 < k < |all| && all[k].Attempt? ==> !all[k].step.Spawn?
  {
    var all := [head] + rest;
    forall k | 0 < k < |all| && all[k].Attempt?
      ensures !all[k].step.Spawn?
    {
      assert all[k] == rest[k - 1];
    }
  }

  /** The merged branch calls `run` itself nowhere; the helpers it calls spawn
      commands of their own, each modelled as one step of its own kind. */
  lemma PublishSpawnsNothing(pr: Release.PullRequest, inputs: Inputs, meta: ReleaseMeta,
                             parseVersion: string -> Option<Version>, env: Env)
    ensures forall e :: e in Release.Publish(pr, inputs, meta, parseVersion, env).effects && e.Attempt? ==> !e.step.Spawn?
  {
    var shouldRevert := Flag(inputs, "revert-commit-after-failure");
    var publish := Sequence(Release.PublishSteps(inputs, meta), env);
    assert forall s :: s in Release.PublishSteps(inputs, meta) ==> s.PublishToNpm?;
    match publish.error
    case Some(m) =>
      var recovery := Release.Recover(shouldRevert, pr.baseRef, Release.PublishFailure + m, env);
      assert forall e :: e in recovery.effects && e.Attempt? ==> e.step.RevertCommit?;
    case None =>
  }
}
