/**
 What `src/openPr.js` promises about the order of its steps, proved of the
 `OpenPr.OpenPr` model for every environment.
 */
module OpenPrProperties {
  import opened JsText
  import opened Workflow
  import opened Semver
  import opened OpenPr

  /** The commit message argument of a request, as the model computes it. */
  function MessageOf(req: Request, commitMessage: (Option<string>, string, Option<string>) -> string): string
    requires Truthy(req.packageVersion)
  {
    var v := NewVersion(req.inputs, req.packageVersion.value);
    commitMessage(Input(req.inputs, "commit-message"), v, Input(req.inputs, "monorepo-package"))
  }

  function BranchOf(req: Request): string
    requires Truthy(req.packageVersion)
  {
    BranchName(req.inputs, NewVersion(req.inputs, req.packageVersion.value))
  }

  /** The git commands run in order, and the first one that fails ends the
      run with its own message: nothing after it is attempted. */
  lemma GitFailureStops(req: Request, commitMessage: (Option<string>, string, Option<string>) -> string,
                        parseVersion: string -> Option<Version>, render: TemplateArgs -> string, env: Env, k: nat)
    requires Truthy(req.packageVersion)
    requires var steps := GitSteps(BranchOf(req), MessageOf(req, commitMessage));
      k < 4 && env(steps[k]).Err? && forall i :: 0 <= i < k ==> env(steps[i]).Ok?
    ensures var steps := GitSteps(BranchOf(req), MessageOf(req, commitMessage));
      OpenPr.OpenPr(req, commitMessage, parseVersion, render, env)
        == Stage(AttemptAll(steps[..k + 1]), Err(env(steps[k]).message))
  {
    var steps := GitSteps(BranchOf(req), MessageOf(req, commitMessage));
    var p := Sequence(steps, env);
    assert p.error.Some?;
    assert |p.effects| == k + 1;
  }

  /** When the git commands succeed, they are the first four steps, in order:
      checkout, add, commit, push. */
  lemma GitCommandsFirst(req: Request, commitMessage: (Option<string>, string, Option<string>) -> string,
                         parseVersion: string -> Option<Version>, render: TemplateArgs -> string, env: Env)
    requires Truthy(req.packageVersion)
    requires forall s :: s in GitSteps(BranchOf(req), MessageOf(req, commitMessage)) ==> env(s).Ok?
    ensures var r := OpenPr.OpenPr(req, commitMessage, parseVersion, render, env);
      |r.effects| >= 5
      && r.effects[..4] == AttemptAll(GitSteps(BranchOf(req), MessageOf(req, commitMessage)))
      && r.effects[4] == Attempt(RevParse)
  {
    var steps := GitSteps(BranchOf(req), MessageOf(req, commitMessage));
    var v := NewVersion(req.inputs, req.packageVersion.value);
    var git := Sequence(steps, env);
    var draft := DraftRelease(req.inputs, v, env);
    AfterGit(req, commitMessage, parseVersion, render, env);
    var tail := if draft.result.Ok? then Propose(req, v, BranchOf(req), draft.result.value, parseVersion, render, env).effects else [];
    AllAttempted(steps, env);
    HeadThen(git.effects, draft.effects, tail);
  }

  /** With the git commands done, the run continues with the draft release
      and, when that was created, the proposal. */
  lemma AfterGit(req: Request, commitMessage: (Option<string>, string, Option<string>) -> string,
                 parseVersion: string -> Option<Version>, render: TemplateArgs -> string, env: Env)
    requires Truthy(req.packageVersion)
    requires forall s :: s in GitSteps(BranchOf(req), MessageOf(req, commitMessage)) ==> env(s).Ok?
    ensures var v := NewVersion(req.inputs, req.packageVersion.value);
      var git := Sequence(GitSteps(BranchOf(req), MessageOf(req, commitMessage)), env);
      var draft := DraftRelease(req.inputs, v, env);
      && git.error.None?
      && |git.effects| == 4
      && OpenPr.OpenPr(req, commitMessage, parseVersion, render, env).effects
         == git.effects + draft.effects
            + (if draft.result.Ok? then Propose(req, v, BranchOf(req), draft.result.value, parseVersion, render, env).effects else [])
  {
    var steps := GitSteps(BranchOf(req), MessageOf(req, commitMessage));
    assert forall i :: 0 <= i < |steps| ==> steps[i] in steps;
  }

  lemma AllAttempted(steps: seq<Step>, env: Env)
    requires forall s :: s in steps ==> env(s).Ok?
    ensures Sequence(steps, env).effects == AttemptAll(steps)
  {
    assert forall i :: 0 <= i < |steps| ==> steps[i] in steps;
    assert steps[..|steps|] == steps;
  }

  lemma HeadThen(a: seq<Effect>, b: seq<Effect>, c: seq<Effect>)
    requires |b| > 0
    ensures |a + b + c| > |a| && (a + b + c)[..|a|] == a && (a + b + c)[|a|] == b[0]
  {
  }

  /** A draft release that cannot be created stops the run before any
      artifact or pull request, with the prefixed message. */
  lemma DraftFailureStops(req: Request, commitMessage: (Option<string>, string, Option<string>) -> string,
                          parseVersion: string -> Option<Version>, render: TemplateArgs -> string, env: Env)
    requires Truthy(req.packageVersion)
    requires forall s :: s in GitSteps(BranchOf(req), MessageOf(req, commitMessage)) ==> env(s).Ok?
    requires DraftRelease(req.inputs, NewVersion(req.inputs, req.packageVersion.value), env).result.Err?
    ensures var r := OpenPr.OpenPr(req, commitMessage, parseVersion, render, env);
      && r.result.Err? && StartsWith(r.result.message, DraftFailure)
      && forall e :: e in r.effects ==> e.Attempt? && !e.step.AttachArtifact? && !e.step.CreatePullRequest?
  {
    var steps := GitSteps(BranchOf(req), MessageOf(req, commitMessage));
    var v := NewVersion(req.inputs, req.packageVersion.value);
    DraftFailedRun(req, commitMessage, parseVersion, render, env);
    DraftMessage(req.inputs, v, env);
    OnlyEarlySteps(steps, Sequence(steps, env).effects, DraftRelease(req.inputs, v, env).effects);
  }

  /** A draft release failure carries the draft prefix. */
  lemma DraftMessage(inputs: Inputs, v: string, env: Env)
    requires DraftRelease(inputs, v, env).result.Err?
    ensures StartsWith(DraftRelease(inputs, v, env).result.message, DraftFailure)
  {
    if env(RevParse).Err? {
      StartsWithConcat(DraftFailure, env(RevParse).message);
    } else {
      var create := CreateDraftRelease(v, env(RevParse).value, DraftName(inputs, v));
      StartsWithConcat(DraftFailure, env(create).message);
    }
  }

  /** Git commands followed by the draft release steps attach nothing and
      open no pull request. */
  lemma OnlyEarlySteps(steps: seq<Step>, git: seq<Effect>, draft: seq<Effect>)
    requires forall s :: s in steps ==> s.Spawn?
    requires forall e :: e in git ==> e.Attempt? && e.step in steps
    requires forall e :: e in draft ==> e.Attempt? && (e.step == RevParse || e.step.CreateDraftRelease?)
    ensures forall e :: e in git + draft ==> e.Attempt? && !e.step.AttachArtifact? && !e.step.CreatePullRequest?
  {
  }

  /** A draft release that cannot be created ends the run right after it. */
  lemma DraftFailedRun(req: Request, commitMessage: (Option<string>, string, Option<string>) -> string,
                       parseVersion: string -> Option<Version>, render: TemplateArgs -> string, env: Env)
    requires Truthy(req.packageVersion)
    requires forall s :: s in GitSteps(BranchOf(req), MessageOf(req, commitMessage)) ==> env(s).Ok?
    requires DraftRelease(req.inputs, NewVersion(req.inputs, req.packageVersion.value), env).result.Err?
    ensures var draft := DraftRelease(req.inputs, NewVersion(req.inputs, req.packageVersion.value), env);
      OpenPr.OpenPr(req, commitMessage, parseVersion, render, env)
        == Stage(Sequence(GitSteps(BranchOf(req), MessageOf(req, commitMessage)), env).effects + draft.effects, draft.result)
  {
    var steps := GitSteps(BranchOf(req), MessageOf(req, commitMessage));
    assert forall i :: 0 <= i < |steps| ==> steps[i] in steps;
  }

  /** Everything before the pull request succeeded: the value is the draft
      release id. */
  predicate Prepared(req: Request, commitMessage: (Option<string>, string, Option<string>) -> string,
                     parseVersion: string -> Option<Version>, env: Env, id: string)
  {
    && Truthy(req.packageVersion)
    && (forall s :: s in GitSteps(BranchOf(req), MessageOf(req, commitMessage)) ==> env(s).Ok?)
    && var v := NewVersion(req.inputs, req.packageVersion.value);
    && DraftRelease(req.inputs, v, env).result == Ok(id)
    && Artifacts(req.inputs, v, id, env).result.Ok?
    && parseVersion(v).Some?
  }

  /** The arguments the template is rendered with on a prepared run. */
  function ArgsOf(req: Request, commitMessage: (Option<string>, string, Option<string>) -> string,
                  parseVersion: string -> Option<Version>, env: Env, id: string): TemplateArgs
    requires Prepared(req, commitMessage, parseVersion, env, id)
  {
    var v := NewVersion(req.inputs, req.packageVersion.value);
    TemplateFor(req, v, id, Artifacts(req.inputs, v, id, env).result.value, parseVersion).value
  }

  /** The pull request creation on a prepared run. */
  function CreateOf(req: Request, commitMessage: (Option<string>, string, Option<string>) -> string,
                    parseVersion: string -> Option<Version>, render: TemplateArgs -> string, env: Env, id: string): Step
    requires Prepared(req, commitMessage, parseVersion, env, id)
  {
    var branch := BranchOf(req);
    CreatePullRequest("refs/heads/" + branch, req.baseRef, PrTitle(branch),
                      render(ArgsOf(req, commitMessage, parseVersion, env, id)))
  }

  /** After the draft release, with the artifacts attached and the version
      parsed, the pull request is opened and the draft release id returned. */
  lemma ProposeOpens(req: Request, newVersion: string, branch: string, id: string,
                     parseVersion: string -> Option<Version>, render: TemplateArgs -> string, env: Env)
    requires Artifacts(req.inputs, newVersion, id, env).result.Ok? && parseVersion(newVersion).Some?
    ensures var art := Artifacts(req.inputs, newVersion, id, env);
      var args := TemplateFor(req, newVersion, id, art.result.value, parseVersion).value;
      Propose(req, newVersion, branch, id, parseVersion, render, env)
        == Stage(art.effects + OpenPullRequest(branch, req.baseRef, render(args), env), Ok(id))
  {
  }

  /** With the git commands and the draft release done, the run continues with
      the proposal. */
  lemma AfterDraft(req: Request, commitMessage: (Option<string>, string, Option<string>) -> string,
                   parseVersion: string -> Option<Version>, render: TemplateArgs -> string, env: Env, id: string)
    requires Truthy(req.packageVersion)
    requires forall s :: s in GitSteps(BranchOf(req), MessageOf(req, commitMessage)) ==> env(s).Ok?
    requires DraftRelease(req.inputs, NewVersion(req.inputs, req.packageVersion.value), env).result == Ok(id)
    ensures var v := NewVersion(req.inputs, req.packageVersion.value);
      var rest := Propose(req, v, BranchOf(req), id, parseVersion, render, env);
      OpenPr.OpenPr(req, commitMessage, parseVersion, render, env)
        == Stage(Sequence(GitSteps(BranchOf(req), MessageOf(req, commitMessage)), env).effects
                   + DraftRelease(req.inputs, v, env).effects + rest.effects, rest.result)
  {
    var steps := GitSteps(BranchOf(req), MessageOf(req, commitMessage));
    assert forall i :: 0 <= i < |steps| ==> steps[i] in steps;
  }

  /** On a prepared run the trace ends with opening the pull request. */
  lemma PreparedRun(req: Request, commitMessage: (Option<string>, string, Option<string>) -> string,
                    parseVersion: string -> Option<Version>, render: TemplateArgs -> string, env: Env, id: string)
    requires Prepared(req, commitMessage, parseVersion, env, id)
    ensures var v := NewVersion(req.inputs, req.packageVersion.value);
      var r := OpenPr.OpenPr(req, commitMessage, parseVersion, render, env);
      var art := Artifacts(req.inputs, v, id, env);
      var before := Sequence(GitSteps(BranchOf(req), MessageOf(req, commitMessage)), env).effects
        + DraftRelease(req.inputs, v, env).effects + art.effects;
      r == Stage(before + OpenPullRequest(BranchOf(req), req.baseRef, render(ArgsOf(req, commitMessage, parseVersion, env, id)), env),
                 Ok(id))
  {
    var v := NewVersion(req.inputs, req.packageVersion.value);
    AfterDraft(req, commitMessage, parseVersion, render, env, id);
    ProposeOpens(req, v, BranchOf(req), id, parseVersion, render, env);
    var git := Sequence(GitSteps(BranchOf(req), MessageOf(req, commitMessage)), env).effects;
    var draft := DraftRelease(req.inputs, v, env).effects;
    var art := Artifacts(req.inputs, v, id, env).effects;
    var args := ArgsOf(req, commitMessage, parseVersion, env, id);
    var open := OpenPullRequest(BranchOf(req), req.baseRef, render(args), env);
    Assemble(OpenPr.OpenPr(req, commitMessage, parseVersion, render, env),
             Propose(req, v, BranchOf(req), id, parseVersion, render, env), git, draft, art, open, id);
  }

  lemma Assemble(r: Stage<string>, rest: Stage<string>, git: seq<Effect>, draft: seq<Effect>,
                 art: seq<Effect>, open: seq<Effect>, id: string)
    requires r == Stage(git + draft + rest.effects, rest.result)
    requires rest == Stage(art + open, Ok(id))
    ensures r == Stage(git + draft + art + open, Ok(id))
  {
    assert git + draft + (art + open) == git + draft + art + open;
  }

  /** The pull request is opened from the release branch with the prefixed
      title, and its body is the template rendered with the release meta of
      the new version and the draft release; the function returns the draft
      release id whatever the pull request's fate. */
  lemma PullRequestCarriesMeta(req: Request, commitMessage: (Option<string>, string, Option<string>) -> string,
                               parseVersion: string -> Option<Version>, render: TemplateArgs -> string, env: Env, id: string)
    requires Prepared(req, commitMessage, parseVersion, env, id)
    ensures var r := OpenPr.OpenPr(req, commitMessage, parseVersion, render, env);
      var args := ArgsOf(req, commitMessage, parseVersion, env, id);
      && r.result == Ok(id)
      && Attempt(CreatePullRequest("refs/heads/" + BranchOf(req), req.baseRef, PrTitle(BranchOf(req)), render(args))) in r.effects
      && args.releaseMeta == MetaFor(req.inputs, NewVersion(req.inputs, req.packageVersion.value), id)
  {
    PreparedRun(req, commitMessage, parseVersion, render, env, id);
    var v := NewVersion(req.inputs, req.packageVersion.value);
    var rest := OpenPullRequest(BranchOf(req), req.baseRef, render(ArgsOf(req, commitMessage, parseVersion, env, id)), env);
    var r := OpenPr.OpenPr(req, commitMessage, parseVersion, render, env);
    assert r.effects[|r.effects| - |rest|] == rest[0];
  }

  /** A pull request that cannot be created: the pushed branch is deleted and
      failed is set with the creation error, extended with the deletion error
      when that fails too; the draft release id is still returned. */
  lemma PrFailureCleansUp(req: Request, commitMessage: (Option<string>, string, Option<string>) -> string,
                          parseVersion: string -> Option<Version>, render: TemplateArgs -> string, env: Env, id: string)
    requires Prepared(req, commitMessage, parseVersion, env, id)
    requires env(CreateOf(req, commitMessage, parseVersion, render, env, id)).Err?
    ensures var r := OpenPr.OpenPr(req, commitMessage, parseVersion, render, env);
      var m := env(CreateOf(req, commitMessage, parseVersion, render, env, id)).message;
      && r.result == Ok(id)
      && |r.effects| >= 2
      && r.effects[|r.effects| - 2] == Attempt(DeleteBranch(BranchOf(req)))
      && r.effects[|r.effects| - 1] == Failed(PrFailureMessage(BranchOf(req), m, env(DeleteBranch(BranchOf(req)))))
      && Failures(r.effects) == [PrFailureMessage(BranchOf(req), m, env(DeleteBranch(BranchOf(req))))]
  {
    PreparedRun(req, commitMessage, parseVersion, render, env, id);
    var v := NewVersion(req.inputs, req.packageVersion.value);
    var before := Sequence(GitSteps(BranchOf(req), MessageOf(req, commitMessage)), env).effects
      + DraftRelease(req.inputs, v, env).effects + Artifacts(req.inputs, v, id, env).effects;
    var rest := OpenPullRequest(BranchOf(req), req.baseRef, render(ArgsOf(req, commitMessage, parseVersion, env, id)), env);
    EndsWithFailure(before, rest);
  }

  /** A trace of attempts followed by a tail that ends with its only failure
      sets exactly that failure. */
  lemma EndsWithFailure(before: seq<Effect>, rest: seq<Effect>)
    requires forall e :: e in before ==> e.Attempt?
    requires |rest| == 3 && rest[0].Attempt? && rest[1].Attempt? && rest[2].Failed?
    ensures Failures(before + rest) == [rest[2].message]
  {
    assert forall i :: 0 <= i < |before| ==> before[i] in before;
    FailuresOfAttempts(before);
    FailuresAppend(before, rest);
    assert rest[1..][1..] == rest[2..];
    assert rest[2..][1..] == [];
    assert Failures(rest[2..]) == [rest[2].message];
    assert Failures(rest[1..]) == Failures(rest[2..]);
  }
}
