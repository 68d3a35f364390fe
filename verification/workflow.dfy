/**
 What the release automation shares between its entry points: the action's
 inputs, the constants of `src/const.js`, the release-meta record that travels
 inside the release pull request, and the external steps (git, npm, the GitHub
 and release APIs) that the orchestration performs.

 Every external step is opaque: an environment `Env` says, for each step, whether
 it succeeds (and with what output) or fails (and with what message). Running
 an orchestration yields a trace of effects: the steps it attempted and the
 `core.setFailed` messages it set, in order.
 */
module Workflow {
  import opened JsText

  datatype Option<+T> = None | Some(value: T)

  /** The result of an asynchronous call: a value, or a rejection carrying
      `err.message`. */
  datatype Outcome<+T> = Ok(value: T) | Err(message: string)

  /** The login of the bot that authors release pull requests. */
  const BotLogin: string := "optic-release-automation[bot]"

  /** `PR_TITLE_PREFIX`. Its definition, `src/const.js`, is not part of this
      model; no property below depends on its value. */
  const PrTitlePrefix: string := "[OPTIC-RELEASE-AUTOMATION]"

  /** The action inputs; a key that is absent reads as `undefined`. */
  type Inputs = map<string, string>

  function Input(inputs: Inputs, key: string): Option<string> {
    if key in inputs then Some(inputs[key]) else None
  }

  /** `String(v)`, as a template literal or a regular-expression test converts
      its operand: `undefined` becomes the text "undefined". */
  function Str(v: Option<string>): string {
    match v
    case None => "undefined"
    case Some(s) => s
  }

  /** JavaScript truthiness of an input: present and non-empty. */
  predicate Truthy(v: Option<string>) {
    v.Some? && |v.value| > 0
  }

  lemma UndefinedIsNotTrue()
    ensures !exists i :: FoldedAt("undefined", "true", i)
  {
    forall i | 0 <= i && i + 4 <= 9
      ensures !FoldedAt("undefined", "true", i)
    {
      var w := "undefined"[i..i + 4];
      assert w[0] == "undefined"[i];
      assert Lower(w)[0] == LowerAscii(w[0]) != 't';
    }
  }

  /** `/true/i.test(inputs[key])`: the input contains "true" in any letter
      case; a missing input is read as the text "undefined" and is false. */
  function Flag(inputs: Inputs, key: string): (r: bool)
    ensures r <==> key in inputs && exists i :: FoldedAt(inputs[key], "true", i)
  {
    UndefinedIsNotTrue();
    TestIgnoringCase(Str(Input(inputs, key)), "true")
  }

  /** The `<release-meta>` record: the draft release id, the version, and the
      inputs the release step needs later. Inputs that were undefined are
      dropped by `JSON.stringify` and so are `None` here. */
  datatype ReleaseMeta = ReleaseMeta(
    id: string,
    version: string,
    npmTag: Option<string>,
    monorepoPackage: Option<string>,
    monorepoRoot: Option<string>,
    opticUrl: Option<string>)

  /** The release branch name as the release step derives it from the meta
      version. */
  function ReleaseBranch(version: string): string {
    "release/" + version
  }

  /** An external operation whose success or failure the model does not decide. */
  datatype Step =
    | Spawn(command: string, args: seq<string>)
    | DeleteRelease(owner: string, repo: string, releaseId: string)
    | PublishToNpm(npmToken: string, opticToken: Option<string>, opticUrl: Option<string>,
                   npmTag: Option<string>, version: string)
    | RevertCommit(baseRef: string)
    | TagVersion(tag: string)
    | PatchRelease(version: string, releaseId: string)
    | NotifyLinkedIssues(postNpmLink: bool)
    | ZipFolder(folder: string)
    | UploadAsset(releaseId: string)
    | CreateDraftRelease(version: string, target: string, name: Option<string>)
    | AttachArtifact(path: string, releaseId: string, filename: Option<string>)
    | CreatePullRequest(head: string, base: string, title: string, body: string)
    | CreateComment(owner: string, repo: string, issueNumber: nat, body: string)

  /** `git push origin --delete <branch>` */
  function DeleteBranch(branch: string): Step {
    Spawn("git", ["push", "origin", "--delete", branch])
  }

  type Env = Step -> Outcome<string>

  /** `env` with the outcome of the single step `s` replaced by `res`. */
  function Override(env: Env, s: Step, res: Outcome<string>): (e: Env)
    ensures e(s) == res
    ensures forall t :: t != s ==> e(t) == env(t)
  {
    t => if t == s then res else env(t)
  }

  datatype Effect = Attempt(step: Step) | Failed(message: string)

  /** How a run of an orchestration ends: the guard turned the event away, the
      release meta could not be read, the function returned, or it threw. */
  datatype Exit = Skipped | BadMeta | Done | Threw(message: string)

  datatype Run = Run(effects: seq<Effect>, exit: Exit)

  /** The steps attempted in a trace, in order. */
  function Attempts(effects: seq<Effect>): (r: seq<Step>)
    ensures forall s :: s in r <==> Attempt(s) in effects
  {
    if |effects| == 0 then []
    else
      var rest := Attempts(effects[1..]);
      assert forall e :: e in effects <==> e == effects[0] || e in effects[1..];
      if effects[0].Attempt? then [effects[0].step] + rest else rest
  }

  /** The `core.setFailed` messages of a trace, in order. */
  function Failures(effects: seq<Effect>): (r: seq<string>)
    ensures forall m :: m in r <==> Failed(m) in effects
  {
    if |effects| == 0 then []
    else
      var rest := Failures(effects[1..]);
      assert forall e :: e in effects <==> e == effects[0] || e in effects[1..];
      if effects[0].Failed? then [effects[0].message] + rest else rest
  }

  lemma {:induction false} AttemptsAppend(a: seq<Effect>, b: seq<Effect>)
    ensures Attempts(a + b) == Attempts(a) + Attempts(b)
  {
    if |a| > 0 {
      assert (a + b)[1..] == a[1..] + b;
      AttemptsAppend(a[1..], b);
    } else {
      assert a + b == b;
    }
  }

  lemma {:induction false} FailuresAppend(a: seq<Effect>, b: seq<Effect>)
    ensures Failures(a + b) == Failures(a) + Failures(b)
  {
    if |a| > 0 {
      assert (a + b)[1..] == a[1..] + b;
      FailuresAppend(a[1..], b);
    } else {
      assert a + b == b;
    }
  }

  /** The tags moved in a trace, in order. */
  function TaggedVersions(effects: seq<Effect>): seq<string> {
    if |effects| == 0 then []
    else
      (if effects[0].Attempt? && effects[0].step.TagVersion? then [effects[0].step.tag] else [])
        + TaggedVersions(effects[1..])
  }

  lemma {:induction false} TaggedVersionsAppend(a: seq<Effect>, b: seq<Effect>)
    ensures TaggedVersions(a + b) == TaggedVersions(a) + TaggedVersions(b)
  {
    if |a| > 0 {
      assert (a + b)[1..] == a[1..] + b;
      TaggedVersionsAppend(a[1..], b);
    } else {
      assert a + b == b;
    }
  }

  /** The tags moved by the steps of a trace with no tag attempt. */
  lemma {:induction false} NoTagsAttempted(effects: seq<Effect>)
    requires forall e :: e in effects ==> !(e.Attempt? && e.step.TagVersion?)
    ensures TaggedVersions(effects) == []
  {
    if |effects| > 0 {
      assert effects[0] in effects;
      NoTagsAttempted(effects[1..]);
    }
  }

  /** The tags moved by a trace made of three parts of which only the middle
      one moves tags. */
  lemma {:induction false} TaggedMiddle(a: seq<Effect>, b: seq<Effect>, c: seq<Effect>)
    requires forall e :: e in a ==> !(e.Attempt? && e.step.TagVersion?)
    requires forall e :: e in c ==> !(e.Attempt? && e.step.TagVersion?)
    ensures TaggedVersions(a + b + c) == TaggedVersions(b)
  {
    NoTagsAttempted(a);
    NoTagsAttempted(c);
    TaggedVersionsAppend(a, b);
    TaggedVersionsAppend(a + b, c);
  }

  /** A trace of attempts alone sets no failure. */
  lemma {:induction false} FailuresOfAttempts(effects: seq<Effect>)
    requires forall i :: 0 <= i < |effects| ==> effects[i].Attempt?
    ensures Failures(effects) == []
  {
    if |effects| > 0 {
      FailuresOfAttempts(effects[1..]);
    }
  }

  function AttemptAll(steps: seq<Step>): (r: seq<Effect>)
    ensures |r| == |steps|
    ensures forall i :: 0 <= i < |steps| ==> r[i] == Attempt(steps[i])
  {
    if |steps| == 0 then [] else [Attempt(steps[0])] + AttemptAll(steps[1..])
  }

  /** The effects of awaiting a series of steps, and the message of the one that
      rejected, if any. */
  datatype Progress = Progress(effects: seq<Effect>, error: Option<string>)

  /** `await` each step in turn inside one `try` block: the first rejection
      stops the series. */
  function Sequence(steps: seq<Step>, env: Env): (r: Progress)
    ensures |r.effects| <= |steps|
    ensures r.effects == AttemptAll(steps[..|r.effects|])
    ensures forall e :: e in r.effects ==> e.Attempt? && e.step in steps
    ensures r.error.None? <==> forall i :: 0 <= i < |steps| ==> env(steps[i]).Ok?
    ensures r.error.None? ==> |r.effects| == |steps|
    ensures r.error.Some? ==>
      && |r.effects| > 0
      && env(steps[|r.effects| - 1]) == Err(r.error.value)
      && forall i :: 0 <= i < |r.effects| - 1 ==> env(steps[i]).Ok?
  {
    if |steps| == 0 then Progress([], None)
    else
      match env(steps[0])
      case Err(m) =>
        assert steps[..1] == [steps[0]];
        Progress([Attempt(steps[0])], Some(m))
      case Ok(_) =>
        var rest := Sequence(steps[1..], env);
        AttemptsCons(steps, rest.effects);
        Progress([Attempt(steps[0])] + rest.effects, rest.error)
  }

  /** Attempting the first step, then a prefix of the others, attempts a
      prefix of the whole series. */
  lemma AttemptsCons(steps: seq<Step>, rest: seq<Effect>)
    requires 0 < |steps| && |rest| < |steps|
    requires rest == AttemptAll(steps[1..][..|rest|])
    requires forall e :: e in rest ==> e.Attempt? && e.step in steps[1..]
    ensures [Attempt(steps[0])] + rest == AttemptAll(steps[..|rest| + 1])
    ensures forall e :: e in [Attempt(steps[0])] + rest ==> e.Attempt? && e.step in steps
  {
    assert steps[..|rest| + 1][1..] == steps[1..][..|rest|];
  }

  /** The outcome of a series depends only on how its own steps turn out. */
  lemma {:induction false} SequenceLocal(steps: seq<Step>, env: Env, env': Env)
    requires forall i :: 0 <= i < |steps| ==> env(steps[i]) == env'(steps[i])
    ensures Sequence(steps, env) == Sequence(steps, env')
  {
    if |steps| > 0 {
      SequenceLocal(steps[1..], env, env');
    }
  }
}
