/**
 The first half of the release automation (`src/openPr.js`): on a manual run it
 commits the bumped version on a fresh release branch, pushes it, creates a
 draft release, attaches artifacts, and opens the release pull request whose
 body carries the release meta.

 The commit-message transformation, the `semver.parse` call and the compiled
 `pr.tpl` template are foreign code and appear as function parameters.
 */
module OpenPr {
  import opened JsText
  import opened Workflow
  import opened Semver

  /** What the entry point receives: the action inputs, the package version
      read from `package.json` (possibly missing), the actor and the ref of the
      branch the workflow ran on. */
  datatype Request = Request(inputs: Inputs, packageVersion: Option<string>, actor: string, baseRef: string)

  /** The values handed to the pull-request template. */
  datatype TemplateArgs = TemplateArgs(
    releaseMeta: ReleaseMeta,
    draftReleaseId: string,
    tagsToUpdate: string,
    npmPublish: bool,
    artifact: Option<string>,
    syncTags: bool,
    author: string)

  /** The effects of a stage and either its value or the message of the error
      it threw. */
  datatype Stage<+T> = Stage(effects: seq<Effect>, result: Outcome<T>)

  const MissingVersion: string := "packageVersion is missing!"
  const DraftFailure: string := "Unable to create draft release: "
  const PrFailure: string := "Unable to create the pull request "

  /** `${inputs['version-prefix']}${packageVersion}` */
  function NewVersion(inputs: Inputs, packageVersion: string): (r: string)
    ensures !("version-prefix" in inputs) ==> r == "undefined" + packageVersion
    ensures "version-prefix" in inputs ==> r == inputs["version-prefix"] + packageVersion
  {
    Str(Input(inputs, "version-prefix")) + packageVersion
  }

  /** `release/<package>-<version>` for a monorepo package, `release/<version>`
      otherwise. */
  function BranchName(inputs: Inputs, newVersion: string): (r: string)
    ensures StartsWith(r, "release/")
    ensures !Truthy(Input(inputs, "monorepo-package")) ==> r == ReleaseBranch(newVersion)
    ensures Truthy(Input(inputs, "monorepo-package")) ==>
      r == ReleaseBranch(inputs["monorepo-package"] + "-" + newVersion)
  {
    var pkg := Input(inputs, "monorepo-package");
    var name := if Truthy(pkg) then pkg.value + "-" + newVersion else newVersion;
    StartsWithConcat("release/", name);
    ReleaseBranch(name)
  }

  /** The title of the release pull request. */
  function PrTitle(branch: string): (r: string)
    ensures StartsWith(r, PrTitlePrefix)
    ensures r[|PrTitlePrefix|..] == " " + branch
  {
    StartsWithConcat(PrTitlePrefix, " " + branch);
    PrTitlePrefix + " " + branch
  }

  /** The four git commands that create and push the release branch: check it
      out, stage everything, commit with the quoted message, push. */
  function GitSteps(branch: string, message: string): (r: seq<Step>)
    ensures |r| == 4
    ensures forall s :: s in r ==> s.Spawn? && s.command == "git"
    ensures r[0].args == ["checkout", "-b", branch] && r[3].args == ["push", "origin", branch]
    ensures r[1].args == ["add", "-A"]
    ensures |r[2].args| == 3 && r[2].args[..2] == ["commit", "-m"]
    ensures var quoted := r[2].args[2];
      && |quoted| == |message| + 2 && quoted[0] == '"' && quoted[|quoted| - 1] == '"'
      && quoted[1..|quoted| - 1] == message
  {
    [ Spawn("git", ["checkout", "-b", branch]),
      Spawn("git", ["add", "-A"]),
      Spawn("git", ["commit", "-m", "\"" + message + "\""]),
      Spawn("git", ["push", "origin", branch]) ]
  }

  const RevParse: Step := Spawn("git", ["rev-parse", "HEAD"])

  /** The name of the draft release: only a monorepo package names it. */
  function DraftName(inputs: Inputs, newVersion: string): (r: Option<string>)
    ensures r.Some? <==> Truthy(Input(inputs, "monorepo-package"))
    ensures r.Some? ==> StartsWith(r.value, inputs["monorepo-package"] + " - ")
    ensures r.Some? ==> r.value[|inputs["monorepo-package"]| + 3..] == newVersion
  {
    var pkg := Input(inputs, "monorepo-package");
    if Truthy(pkg) then
      StartsWithConcat(pkg.value + " - ", newVersion);
      Some(pkg.value + " - " + newVersion)
    else None
  }

  /** `createDraftRelease`: read the commit hash, then create the draft release
      targeting it; either failure is rethrown with a prefix. */
  function DraftRelease(inputs: Inputs, newVersion: string, env: Env): (r: Stage<string>)
    ensures 1 <= |r.effects| <= 2 && r.effects[0] == Attempt(RevParse)
    ensures forall e :: e in r.effects ==> e.Attempt? && (e.step == RevParse || e.step.CreateDraftRelease?)
    ensures env(RevParse).Err? ==> r == Stage([Attempt(RevParse)], Err(DraftFailure + env(RevParse).message))
    ensures env(RevParse).Ok? ==>
      var create := CreateDraftRelease(newVersion, env(RevParse).value, DraftName(inputs, newVersion));
      && r.effects == [Attempt(RevParse), Attempt(create)]
      && (r.result.Ok? <==> env(create).Ok?)
      && (r.result.Ok? ==> r.result.value == env(create).value)
      && (r.result.Err? ==> r.result.message == DraftFailure + env(create).message)
  {
    match env(RevParse)
    case Err(m) => Stage([Attempt(RevParse)], Err(DraftFailure + m))
    case Ok(hash) =>
      var create := CreateDraftRelease(newVersion, hash, DraftName(inputs, newVersion));
      var effects := [Attempt(RevParse), Attempt(create)];
      match env(create)
      case Err(m) => Stage(effects, Err(DraftFailure + m))
      case Ok(id) => Stage(effects, Ok(id))
  }

  /** The attachment of the `artifact-path` folder, if that input is set. */
  function ArtifactStep(inputs: Inputs, releaseId: string): Step
    requires Truthy(Input(inputs, "artifact-path"))
  {
    AttachArtifact(inputs["artifact-path"], releaseId, None)
  }

  /** The attachment of a monorepo package's folder, named after the package
      and the version. */
  function PackageStep(inputs: Inputs, newVersion: string, releaseId: string): Step
    requires Truthy(Input(inputs, "monorepo-package"))
  {
    var pkg := inputs["monorepo-package"];
    AttachArtifact(Str(Input(inputs, "monorepo-root")) + "/" + pkg, releaseId, Some(pkg + "-" + newVersion + ".zip"))
  }

  /** Attach the `artifact-path` folder, then the monorepo package folder; a
      failed attachment is not caught. The value is the attached artifact, if
      any. */
  function Artifacts(inputs: Inputs, newVersion: string, releaseId: string, env: Env): (r: Stage<Option<string>>)
    ensures forall e :: e in r.effects ==> e.Attempt? && e.step.AttachArtifact? && e.step.releaseId == releaseId
    ensures Truthy(Input(inputs, "artifact-path")) ==>
      |r.effects| > 0 && r.effects[0] == Attempt(ArtifactStep(inputs, releaseId))
    ensures !Truthy(Input(inputs, "artifact-path")) ==> forall e :: e in r.effects ==> e.step.filename.Some?
    ensures Truthy(Input(inputs, "monorepo-package")) ==>
      (Attempt(PackageStep(inputs, newVersion, releaseId)) in r.effects
       <==> !Truthy(Input(inputs, "artifact-path")) || env(ArtifactStep(inputs, releaseId)).Ok?)
    ensures r.result.Ok? ==> (r.result.value.Some? <==> Truthy(Input(inputs, "artifact-path")))
    ensures r.result.Err? ==>
      exists e :: e in r.effects && env(e.step).Err? && r.result.message == env(e.step).message
  {
    var path := Input(inputs, "artifact-path");
    var first: Stage<Option<string>> :=
      if Truthy(path) then
        var s := ArtifactStep(inputs, releaseId);
        match env(s)
        case Err(m) => Stage([Attempt(s)], Err(m))
        case Ok(a) => Stage([Attempt(s)], Ok(Some(a)))
      else Stage([], Ok(None));
    if first.result.Err? || !Truthy(Input(inputs, "monorepo-package")) then first
    else
      var s := PackageStep(inputs, newVersion, releaseId);
      assert Attempt(s) in [Attempt(s)];
      match env(s)
      case Err(m) => Stage(first.effects + [Attempt(s)], Err(m))
      case Ok(_) => Stage(first.effects + [Attempt(s)], first.result)
  }

  /** The release meta written into the pull request: the draft release id,
      the new version and the inputs the release step needs later. */
  function MetaFor(inputs: Inputs, newVersion: string, releaseId: string): (r: ReleaseMeta)
    ensures r.id == releaseId && r.version == newVersion
    ensures r.npmTag == Input(inputs, "npm-tag") && r.opticUrl == Input(inputs, "optic-url")
    ensures r.monorepoPackage == Input(inputs, "monorepo-package") && r.monorepoRoot == Input(inputs, "monorepo-root")
  {
    ReleaseMeta(releaseId, newVersion, Input(inputs, "npm-tag"), Input(inputs, "monorepo-package"),
                Input(inputs, "monorepo-root"), Input(inputs, "optic-url"))
  }

  /** `getPRBody` up to the template call: the template values, or the error
      destructuring a version `semver.parse` rejected. */
  function TemplateFor(req: Request, newVersion: string, releaseId: string, artifact: Option<string>,
                       parseVersion: string -> Option<Version>): (r: Outcome<TemplateArgs>)
    ensures r.Err? <==> parseVersion(newVersion).None?
    ensures r.Err? ==> r.message == NullVersionMessage
    ensures r.Ok? ==>
      var args := r.value;
      && args.releaseMeta == MetaFor(req.inputs, newVersion, releaseId)
      && args.draftReleaseId == releaseId
      && args.tagsToUpdate == Join(ConditionalTags(parseVersion(newVersion).value), ", ")
      && (args.npmPublish <==> Truthy(Input(req.inputs, "npm-token")))
      && (args.syncTags <==> Flag(req.inputs, "sync-semver-tags"))
      && args.artifact == artifact
      && args.author == req.actor
  {
    match parseVersion(newVersion)
    case None => Err(NullVersionMessage)
    case Some(v) =>
      Ok(TemplateArgs(MetaFor(req.inputs, newVersion, releaseId), releaseId, Join(ConditionalTags(v), ", "),
                      Truthy(Input(req.inputs, "npm-token")), artifact, Flag(req.inputs, "sync-semver-tags"), req.actor))
  }

  /** The message set when the pull request cannot be created, extended when
      the branch cannot be deleted either. */
  function PrFailureMessage(branch: string, prError: string, deletion: Outcome<string>): (r: string)
    ensures StartsWith(r, PrFailure + prError)
    ensures deletion.Ok? <==> r == PrFailure + prError
    ensures deletion.Err? ==> r == PrFailure + prError + "\n Unable to delete branch " + branch + ":  " + deletion.message
  {
    match deletion
    case Ok(_) => PrFailure + prError
    case Err(m) =>
      var suffix := "\n Unable to delete branch " + branch + ":  " + m;
      StartsWithConcat(PrFailure + prError, suffix);
      PrFailure + prError + suffix
  }

  /** Create the pull request; on failure delete the pushed branch and set
      failed. Nothing here throws. */
  function OpenPullRequest(branch: string, baseRef: string, body: string, env: Env): (r: seq<Effect>)
    ensures |r| > 0 && r[0] == Attempt(CreatePullRequest("refs/heads/" + branch, baseRef, PrTitle(branch), body))
    ensures var create := CreatePullRequest("refs/heads/" + branch, baseRef, PrTitle(branch), body);
      && (env(create).Ok? ==> r == [Attempt(create)])
      && (env(create).Err? ==>
            r == [Attempt(create), Attempt(DeleteBranch(branch)),
                  Failed(PrFailureMessage(branch, env(create).message, env(DeleteBranch(branch))))])
  {
    var create := CreatePullRequest("refs/heads/" + branch, baseRef, PrTitle(branch), body);
    match env(create)
    case Ok(_) => [Attempt(create)]
    case Err(m) =>
      [Attempt(create), Attempt(DeleteBranch(branch)), Failed(PrFailureMessage(branch, m, env(DeleteBranch(branch))))]
  }

  /** Everything after the draft release exists: attach artifacts, render the
      body, open the pull request. The value is the draft release id. */
  function Propose(req: Request, newVersion: string, branch: string, releaseId: string,
                   parseVersion: string -> Option<Version>, render: TemplateArgs -> string, env: Env): (r: Stage<string>)
    ensures r.result.Ok? ==> r.result.value == releaseId
    ensures forall e :: e in r.effects && e.Attempt? ==>
      e.step.AttachArtifact? || e.step.CreatePullRequest? || e.step == DeleteBranch(branch)
    ensures Failures(r.effects) != [] ==> r.result.Ok?
  {
    var art := Artifacts(req.inputs, newVersion, releaseId, env);
    FailuresOfAttempts(art.effects);
    match art.result
    case Err(m) => Stage(art.effects, Err(m))
    case Ok(artifact) =>
      match TemplateFor(req, newVersion, releaseId, artifact, parseVersion)
      case Err(m) => Stage(art.effects, Err(m))
      case Ok(args) =>
        Stage(art.effects + OpenPullRequest(branch, req.baseRef, render(args), env), Ok(releaseId))
  }

  /** The exported function: the trace and either the draft release id it
      returns or the message of the error it throws. */
  function OpenPr(req: Request, commitMessage: (Option<string>, string, Option<string>) -> string,
                  parseVersion: string -> Option<Version>, render: TemplateArgs -> string, env: Env): (r: Stage<string>)
    ensures !Truthy(req.packageVersion) <==> r == Stage([], Err(MissingVersion))
    ensures Truthy(req.packageVersion) ==>
      var branch := BranchName(req.inputs, NewVersion(req.inputs, req.packageVersion.value));
      |r.effects| > 0 && r.effects[0] == Attempt(Spawn("git", ["checkout", "-b", branch]))
    ensures Failures(r.effects) != [] ==> r.result.Ok?
  {
    if !Truthy(req.packageVersion) then Stage([], Err(MissingVersion))
    else
      var v := NewVersion(req.inputs, req.packageVersion.value);
      var branch := BranchName(req.inputs, v);
      var message := commitMessage(Input(req.inputs, "commit-message"), v, Input(req.inputs, "monorepo-package"));
      var git := Sequence(GitSteps(branch, message), env);
      FailuresOfAttempts(git.effects);
      match git.error
      case Some(m) => Stage(git.effects, Err(m))
      case None =>
        var draft := DraftRelease(req.inputs, v, env);
        FailuresOfAttempts(draft.effects);
        FailuresAppend(git.effects, draft.effects);
        match draft.result
        case Err(m) => Stage(git.effects + draft.effects, Err(m))
        case Ok(id) =>
          var rest := Propose(req, v, branch, id, parseVersion, render, env);
          FailuresAppend(git.effects + draft.effects, rest.effects);
          Stage(git.effects + draft.effects + rest.effects, rest.result)
  }
}
