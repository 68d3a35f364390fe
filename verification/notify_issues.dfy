/**
 Notifying the issues a release resolves (`src/utils/notifyIssues.js`): the
 pull requests named in the release notes are looked up, the issues each one
 closes are collected, and every issue of the released repository receives a
 comment announcing the release. A failed comment is only logged.

 The GraphQL lookup of the issues a pull request closes is a parameter; the
 comments are steps of the environment. `package.json` is read by the caller
 and its name and version are parameters.
 */
module NotifyIssues {
  import opened JsText
  import opened Workflow
  import opened ReleaseNotes

  /** An issue closed by a pull request, in the repository of that pull
      request. */
  datatype LinkedIssue = LinkedIssue(issueNumber: nat, repoOwner: string, repoName: string)

  /** The released repository's GitHub release: the tokens of its notes and
      its page. */
  datatype GithubRelease = GithubRelease(notes: seq<string>, htmlUrl: string)

  /** What the notification did: the comments it tried to post and the issues
      whose comment was posted. */
  datatype Notified = Notified(attempts: seq<Step>, posted: seq<LinkedIssue>)

  /** The answer of the GraphQL query for one pull request: the numbers of
      the closing-issue nodes, `None` when any level of the path to them is
      missing, or the rejection. */
  type Lookup = (string, string, nat) -> Outcome<Option<seq<nat>>>

  /** `getLinkedIssueNumbers` once the query has answered: no nodes means no
      issues; otherwise each node becomes an issue of the queried
      repository. */
  function LinkedIssues(nodes: Option<seq<nat>>, repoOwner: string, repoName: string): (r: seq<LinkedIssue>)
    ensures nodes.None? ==> r == []
    ensures nodes.Some? ==> |r| == |nodes.value|
    ensures nodes.Some? ==> forall i :: 0 <= i < |r| ==>
      r[i].issueNumber == nodes.value[i] && r[i].repoOwner == repoOwner && r[i].repoName == repoName
  {
    match nodes
    case None => []
    case Some(ns) => seq(|ns|, i requires 0 <= i < |ns| => LinkedIssue(ns[i], repoOwner, repoName))
  }

  /** The link to the released package version on npm. */
  function NpmUrl(packageName: string, packageVersion: string): string {
    "https://www.npmjs.com/package/" + packageName + "/v/" + packageVersion
  }

  /** The opening of every comment, up to the list of places. */
  function Header(packageVersion: string): string {
    HeaderOpen + packageVersion + HeaderClose
  }

  const HeaderOpen: string := "\U{1F389} This issue has been resolved in version "
  const HeaderClose: string := " \U{1F389}\n\n\n  The release is available on:"

  function NpmLine(packageName: string, packageVersion: string): string {
    NpmOpen + NpmUrl(packageName, packageVersion) + ")"
  }

  const NpmOpen: string := "\n  * [npm package]("

  function ReleaseLine(releaseUrl: string): string {
    ReleaseOpen + releaseUrl + ")"
  }

  const ReleaseOpen: string := "\n  * [GitHub release]("

  const Footer: string :=
    "\n\n\n  Your **[optic](https://github.com/nearform/optic-release-automation-action)** bot \U{1F4E6}\U{1F680}"

  /** `createCommentBody`: the announcement, with the npm link only when asked
      for. It opens with the header naming the version, the npm line (when
      asked for) follows the header, the GitHub release line comes right
      before the footer, and nothing else is in between. */
  function CommentBody(shouldPostNpmLink: bool, packageName: string, packageVersion: string, releaseUrl: string): (r: string)
    ensures LaidOut(r, Header(packageVersion), if shouldPostNpmLink then NpmLine(packageName, packageVersion) else "",
                    ReleaseLine(releaseUrl), Footer)
  {
    var npm := if shouldPostNpmLink then NpmLine(packageName, packageVersion) else "";
    Assemble(Header(packageVersion), npm, ReleaseLine(releaseUrl), Footer)
  }

  /** `r` starts with `h`, has `n` right after it, ends with `line` followed by
      `f`, and holds nothing more. */
  predicate LaidOut(r: string, h: string, n: string, line: string, f: string) {
    && StartsWith(r, h)
    && OccursAt(r, n, |h|)
    && |line| + |f| <= |r| && r[|r| - |f| - |line|..|r| - |f|] == line
    && r[|r| - |f|..] == f
    && |r| == |h| + |n| + |line| + |f|
  }

  /** A body made of a header, an optional line, a last line and a footer. */
  function Assemble(h: string, n: string, line: string, f: string): (r: string)
    ensures LaidOut(r, h, n, line, f)
  {
    var r := h + (n + line) + f;
    assert r[..|h|] == h;
    assert r[|r| - |f|..] == f;
    assert r[|r| - |f| - |line|..|r| - |f|] == line;
    assert r[|h|..|h| + |n|] == n;
    r
  }

  /** Every comment names the version and links the GitHub release; the one
      with the npm link also links the package version on npm. */
  lemma BodyLinks(shouldPostNpmLink: bool, packageName: string, packageVersion: string, releaseUrl: string)
    ensures var r := CommentBody(shouldPostNpmLink, packageName, packageVersion, releaseUrl);
      && Contains(r, packageVersion)
      && Contains(r, releaseUrl)
      && (shouldPostNpmLink ==> Contains(r, NpmUrl(packageName, packageVersion)))
  {
    var r := CommentBody(shouldPostNpmLink, packageName, packageVersion, releaseUrl);
    var n := if shouldPostNpmLink then NpmLine(packageName, packageVersion) else "";
    VersionInBody(r, packageVersion, n, ReleaseLine(releaseUrl), Footer);
    assert OccursAt(r, packageVersion, |HeaderOpen|);
    ReleaseUrlInBody(r, Header(packageVersion), n, releaseUrl, Footer);
    assert OccursAt(r, releaseUrl, |r| - |Footer| - |ReleaseLine(releaseUrl)| + |ReleaseOpen|);
    if shouldPostNpmLink {
      NpmUrlInBody(r, Header(packageVersion), packageName, packageVersion, ReleaseLine(releaseUrl), Footer);
      assert OccursAt(r, NpmUrl(packageName, packageVersion), |Header(packageVersion)| + |NpmOpen|);
    }
  }

  /** The version follows the header's opening words. */
  lemma VersionInBody(r: string, packageVersion: string, n: string, line: string, f: string)
    requires LaidOut(r, Header(packageVersion), n, line, f)
    ensures OccursAt(r, packageVersion, |HeaderOpen|)
  {
    PartsOccur(r, Header(packageVersion), n, line, f);
    InnerOccurs(r, Header(packageVersion), 0, HeaderOpen, packageVersion, HeaderClose);
  }

  /** The release URL sits inside the last line before the footer. */
  lemma ReleaseUrlInBody(r: string, h: string, n: string, releaseUrl: string, f: string)
    requires LaidOut(r, h, n, ReleaseLine(releaseUrl), f)
    ensures OccursAt(r, releaseUrl, |r| - |f| - |ReleaseLine(releaseUrl)| + |ReleaseOpen|)
  {
    var line := ReleaseLine(releaseUrl);
    PartsOccur(r, h, n, line, f);
    InnerOccurs(r, line, |r| - |f| - |line|, ReleaseOpen, releaseUrl, ")");
  }

  /** The npm URL sits inside the line that follows the header. */
  lemma NpmUrlInBody(r: string, h: string, packageName: string, packageVersion: string, line: string, f: string)
    requires LaidOut(r, h, NpmLine(packageName, packageVersion), line, f)
    ensures OccursAt(r, NpmUrl(packageName, packageVersion), |h| + |NpmOpen|)
  {
    var n := NpmLine(packageName, packageVersion);
    PartsOccur(r, h, n, line, f);
    InnerOccurs(r, n, |h|, NpmOpen, NpmUrl(packageName, packageVersion), ")");
  }

  /** Each part of a laid-out comment occurs where the layout puts it. */
  lemma PartsOccur(r: string, h: string, n: string, line: string, f: string)
    requires LaidOut(r, h, n, line, f)
    ensures OccursAt(r, h, 0) && OccursAt(r, n, |h|) && OccursAt(r, line, |r| - |f| - |line|)
  {
  }

  /** A piece of an occurring text occurs too. */
  lemma InnerOccurs(r: string, w: string, i: int, pre: string, x: string, post: string)
    requires OccursAt(r, w, i) && w == pre + x + post
    ensures OccursAt(r, x, i + |pre|)
  {
    var a := i + |pre|;
    assert w[|pre|..|pre| + |x|] == x;
    forall k | 0 <= k < |x|
      ensures r[a..a + |x|][k] == x[k]
    {
      assert r[a + k] == r[i..i + |w|][|pre| + k] == w[|pre| + k];
    }
  }

  /** Whether an issue belongs to the released repository. */
  predicate InRepo(issue: LinkedIssue, owner: string, repo: string) {
    issue.repoOwner == owner && issue.repoName == repo
  }

  /** The issues of the released repository, in order. */
  function SameRepo(issues: seq<LinkedIssue>, owner: string, repo: string): (r: seq<LinkedIssue>)
    ensures forall x :: x in r <==> x in issues && InRepo(x, owner, repo)
    ensures |r| <= |issues|
  {
    if |issues| == 0 then []
    else
      var rest := SameRepo(issues[1..], owner, repo);
      assert forall x :: x in issues <==> x == issues[0] || x in issues[1..];
      if InRepo(issues[0], owner, repo) then [issues[0]] + rest else rest
  }

  /** Filtering keeps the order and the repetitions of the issues: the issues
      of two lists are those of the first followed by those of the second. */
  lemma {:induction false} SameRepoAppend(a: seq<LinkedIssue>, b: seq<LinkedIssue>, owner: string, repo: string)
    ensures SameRepo(a + b, owner, repo) == SameRepo(a, owner, repo) + SameRepo(b, owner, repo)
  {
    if |a| == 0 {
      assert a + b == b;
    } else {
      assert (a + b)[0] == a[0];
      assert (a + b)[1..] == a[1..] + b;
      SameRepoAppend(a[1..], b, owner, repo);
    }
  }

  /** One issue is kept exactly when it belongs to the released repository. */
  lemma SameRepoOne(x: LinkedIssue, owner: string, repo: string)
    ensures SameRepo([x], owner, repo) == if InRepo(x, owner, repo) then [x] else []
  {
    assert [x][1..] == [];
  }

  /** The issues a pull request closes, as its lookup answers them; a
      rejected lookup contributes none. */
  function IssuesOf(ref: PrRef, lookup: Lookup): (r: seq<LinkedIssue>)
    requires IsDigits(ref.prNumber)
    ensures forall x :: x in r ==> x.repoOwner == ref.repoOwner && x.repoName == ref.repoName
  {
    match lookup(ref.repoOwner, ref.repoName, DecimalValue(ref.prNumber))
    case Ok(nodes) => LinkedIssues(nodes, ref.repoOwner, ref.repoName)
    case Err(_) => []
  }

  /** `Array.prototype.flat` on a list of lists. */
  function Flat(xss: seq<seq<LinkedIssue>>): (r: seq<LinkedIssue>)
    ensures forall x :: x in r <==> exists i :: 0 <= i < |xss| && x in xss[i]
  {
    if |xss| == 0 then []
    else
      var rest := Flat(xss[1..]);
      assert forall i :: 0 < i < |xss| ==> xss[i] == xss[1..][i - 1];
      xss[0] + rest
  }

  /** The lookups' answers, one list per pull request, in order. */
  function Answers(refs: seq<PrRef>, lookup: Lookup): (r: seq<seq<LinkedIssue>>)
    requires forall i :: 0 <= i < |refs| ==> IsDigits(refs[i].prNumber)
    ensures |r| == |refs|
    ensures forall i :: 0 <= i < |refs| ==> r[i] == IssuesOf(refs[i], lookup)
  {
    seq(|refs|, i requires 0 <= i < |refs| && IsDigits(refs[i].prNumber) => IssuesOf(refs[i], lookup))
  }

  /** Look up the issues of every pull request in turn and flatten the
      answers; the first rejected lookup rejects the whole collection. */
  function CollectIssues(refs: seq<PrRef>, lookup: Lookup): (r: Outcome<seq<LinkedIssue>>)
    requires forall i :: 0 <= i < |refs| ==> IsDigits(refs[i].prNumber)
    ensures r.Err? <==> exists i :: 0 <= i < |refs| && lookup(refs[i].repoOwner, refs[i].repoName, DecimalValue(refs[i].prNumber)).Err?
    ensures r.Err? ==> exists i :: 0 <= i < |refs| && lookup(refs[i].repoOwner, refs[i].repoName, DecimalValue(refs[i].prNumber)) == Err(r.message)
    ensures r.Ok? ==> r.value == Flat(Answers(refs, lookup))
  {
    if |refs| == 0 then Ok([])
    else
      var ref := refs[0];
      match lookup(ref.repoOwner, ref.repoName, DecimalValue(ref.prNumber))
      case Err(m) => Err(m)
      case Ok(nodes) =>
        var first := LinkedIssues(nodes, ref.repoOwner, ref.repoName);
        match CollectIssues(refs[1..], lookup)
        case Err(m) => Err(m)
        case Ok(rest) =>
          assert forall i :: 0 < i < |refs| ==> refs[i] == refs[1..][i - 1];
          assert Answers(refs, lookup)[1..] == Answers(refs[1..], lookup);
          Ok(first + rest)
  }

  /** An issue is collected exactly when the lookup of some pull request of
      the notes answers it, and it then lies in that pull request's
      repository. */
  lemma CollectedExactly(refs: seq<PrRef>, lookup: Lookup, x: LinkedIssue)
    requires forall i :: 0 <= i < |refs| ==> IsDigits(refs[i].prNumber)
    requires CollectIssues(refs, lookup).Ok?
    ensures x in CollectIssues(refs, lookup).value <==>
      exists i :: 0 <= i < |refs| && x in IssuesOf(refs[i], lookup)
    ensures x in CollectIssues(refs, lookup).value ==>
      exists i :: 0 <= i < |refs| && x.repoOwner == refs[i].repoOwner && x.repoName == refs[i].repoName
  {
    var answers := Answers(refs, lookup);
    assert x in Flat(answers) <==> exists i :: 0 <= i < |answers| && x in answers[i];
  }

  /** The comment posted on one issue. */
  function CommentStep(issue: LinkedIssue, body: string): Step {
    CreateComment(issue.repoOwner, issue.repoName, issue.issueNumber, body)
  }

  /** Comment on each issue of the released repository; a rejected comment
      is skipped. */
  function Comment(issues: seq<LinkedIssue>, owner: string, repo: string, body: string, env: Env): (r: Notified)
    ensures |r.attempts| == |SameRepo(issues, owner, repo)|
    ensures forall k :: 0 <= k < |r.attempts| ==> r.attempts[k] == CommentStep(SameRepo(issues, owner, repo)[k], body)
    ensures forall x :: x in r.posted <==> x in SameRepo(issues, owner, repo) && env(CommentStep(x, body)).Ok?
  {
    if |issues| == 0 then Notified([], [])
    else
      var rest := Comment(issues[1..], owner, repo, body, env);
      var issue := issues[0];
      var same := SameRepo(issues[1..], owner, repo);
      if !InRepo(issue, owner, repo) then
        assert SameRepo(issues, owner, repo) == same;
        rest
      else
        assert SameRepo(issues, owner, repo) == [issue] + same;
        var posted := if env(CommentStep(issue, body)).Ok? then [issue] + rest.posted else rest.posted;
        Notified([CommentStep(issue, body)] + rest.attempts, posted)
  }

  /** The exported function: the notification, or the rejection of one of the
      lookups. */
  function Notify(shouldPostNpmLink: bool, owner: string, repo: string, release: GithubRelease,
                  packageName: string, packageVersion: string, lookup: Lookup, env: Env): (r: Outcome<Notified>)
    ensures r.Ok? ==> forall s :: s in r.value.attempts ==> s.CreateComment? && s.owner == owner && s.repo == repo
    ensures r.Ok? ==> forall s :: s in r.value.attempts ==>
      s.body == CommentBody(shouldPostNpmLink, packageName, packageVersion, release.htmlUrl)
  {
    var refs := PrRefs(release.notes);
    RefsAreDigits(release.notes);
    match CollectIssues(refs, lookup)
    case Err(m) => Err(m)
    case Ok(issues) =>
      var body := CommentBody(shouldPostNpmLink, packageName, packageVersion, release.htmlUrl);
      var r := Comment(issues, owner, repo, body, env);
      CommentsGoHome(issues, owner, repo, body, env);
      Ok(r)
  }

  /** Every pull request found in the notes has a number made of digits. */
  lemma RefsAreDigits(notes: seq<string>)
    ensures forall i :: 0 <= i < |PrRefs(notes)| ==> IsDigits(PrRefs(notes)[i].prNumber)
  {
    var refs := PrRefs(notes);
    forall i | 0 <= i < |refs|
      ensures IsDigits(refs[i].prNumber)
    {
      assert refs[i] in refs;
      var t :| t in notes && RefOfToken(t) == Some(refs[i]);
    }
  }

  /** The comments posted all go to the released repository with the one
      body. */
  lemma CommentsGoHome(issues: seq<LinkedIssue>, owner: string, repo: string, body: string, env: Env)
    ensures forall s :: s in Comment(issues, owner, repo, body, env).attempts ==>
      s.CreateComment? && s.owner == owner && s.repo == repo && s.body == body
  {
    var r := Comment(issues, owner, repo, body, env);
    var same := SameRepo(issues, owner, repo);
    forall s | s in r.attempts
      ensures s.CreateComment? && s.owner == owner && s.repo == repo && s.body == body
    {
      var k :| 0 <= k < |r.attempts| && r.attempts[k] == s;
      assert same[k] in same;
    }
  }

  /** The comment with the npm link is the one without it, with the npm line
      inserted right after the header. */
  lemma NpmLineInserted(packageName: string, packageVersion: string, releaseUrl: string)
    ensures var k := |Header(packageVersion)|;
      var plain := CommentBody(false, packageName, packageVersion, releaseUrl);
      CommentBody(true, packageName, packageVersion, releaseUrl)
        == plain[..k] + NpmLine(packageName, packageVersion) + plain[k..]
  {
    InsertShape(Header(packageVersion), NpmLine(packageName, packageVersion), ReleaseLine(releaseUrl), Footer);
  }

  /** Inserting `n` between a header `h` and the rest of a body. */
  lemma InsertShape(h: string, n: string, line: string, f: string)
    ensures var plain := Assemble(h, "", line, f);
      Assemble(h, n, line, f) == plain[..|h|] + n + plain[|h|..]
  {
    var plain := h + ("" + line) + f;
    assert "" + line == line;
    assert plain[..|h|] == h;
    assert plain[|h|..] == line + f;
  }

  /** Which issues get a comment depends neither on the comments' outcomes
      nor on anything but the lookups: a failed comment never stops the
      others. */
  lemma {:induction false} AttemptsIgnoreOutcomes(issues: seq<LinkedIssue>, owner: string, repo: string, body: string,
                                                  env: Env, env': Env)
    ensures Comment(issues, owner, repo, body, env).attempts == Comment(issues, owner, repo, body, env').attempts
  {
    if |issues| > 0 {
      AttemptsIgnoreOutcomes(issues[1..], owner, repo, body, env, env');
    }
  }

  /** Every issue of the released repository gets a comment, and no other
      issue does. */
  lemma CommentedExactly(issues: seq<LinkedIssue>, owner: string, repo: string, body: string, env: Env, x: LinkedIssue)
    ensures CommentStep(x, body) in Comment(issues, owner, repo, body, env).attempts
        <==> x in issues && InRepo(x, owner, repo)
  {
    var r := Comment(issues, owner, repo, body, env);
    var same := SameRepo(issues, owner, repo);
    if x in same {
      var k :| 0 <= k < |same| && same[k] == x;
      assert r.attempts[k] == CommentStep(x, body);
    }
    if CommentStep(x, body) in r.attempts {
      var k :| 0 <= k < |r.attempts| && r.attempts[k] == CommentStep(x, body);
      assert same[k] in same;
      assert same[k] == x;
    }
  }

  /** A rejected lookup posts nothing. */
  lemma LookupFailureComments(shouldPostNpmLink: bool, owner: string, repo: string, release: GithubRelease,
                              packageName: string, packageVersion: string, lookup: Lookup, env: Env, k: nat)
    requires var refs := PrRefs(release.notes);
      k < |refs| && IsDigits(refs[k].prNumber)
      && lookup(refs[k].repoOwner, refs[k].repoName, DecimalValue(refs[k].prNumber)).Err?
    ensures Notify(shouldPostNpmLink, owner, repo, release, packageName, packageVersion, lookup, env).Err?
  {
    RefsAreDigits(release.notes);
  }

  /** From the release notes to the comment: a note line naming a pull
      request of the released repository by its URL makes the action look up
      that pull request's number, and the one issue it closes gets the
      announcement. */
  lemma PullRequestInNotesNotified(prefix: string, owner: string, repo: string, n: nat, htmlUrl: string, issue: nat,
                                   shouldPostNpmLink: bool, packageName: string, packageVersion: string,
                                   lookup: Lookup, env: Env)
    requires |prefix| > 0 && prefix[|prefix| - 1] == ' ' && ':' !in prefix
    requires '/' !in owner && '/' !in repo && |owner| > 0 && |repo| > 0
    requires NoSpace(owner) && NoSpace(repo)
    requires lookup(owner, repo, n) == Ok(Some([issue]))
    ensures var r := Notify(shouldPostNpmLink, owner, repo, GithubRelease([prefix + PullUrl(owner, repo, n)], htmlUrl),
                            packageName, packageVersion, lookup, env);
      && r.Ok?
      && r.value.attempts == [CreateComment(owner, repo, issue, CommentBody(shouldPostNpmLink, packageName, packageVersion, htmlUrl))]
  {
    var release := GithubRelease([prefix + PullUrl(owner, repo, n)], htmlUrl);
    var ref := PrRef(NatToDecimal(n), owner, repo);
    var issues := [LinkedIssue(issue, owner, repo)];
    var body := CommentBody(shouldPostNpmLink, packageName, packageVersion, htmlUrl);
    NotesRef(prefix, owner, repo, n);
    CollectOne(ref, lookup, n, issue);
    assert Notify(shouldPostNpmLink, owner, repo, release, packageName, packageVersion, lookup, env)
        == Ok(Comment(issues, owner, repo, body, env));
    CommentOne(issues[0], body, env);
  }

  lemma NotesRef(prefix: string, owner: string, repo: string, n: nat)
    requires |prefix| > 0 && prefix[|prefix| - 1] == ' ' && ':' !in prefix
    requires '/' !in owner && '/' !in repo && |owner| > 0 && |repo| > 0
    requires NoSpace(owner) && NoSpace(repo)
    ensures PrRefs([prefix + PullUrl(owner, repo, n)]) == [PrRef(NatToDecimal(n), owner, repo)]
  {
    var t := prefix + PullUrl(owner, repo, n);
    var ref := PrRef(NatToDecimal(n), owner, repo);
    TokenRef(prefix, owner, repo, n);
    assert Collect([t]) == [ref] by {
      assert [t][1..] == [];
    }
    DedupeOfDistinct([ref]);
  }

  lemma CollectOne(ref: PrRef, lookup: Lookup, n: nat, issue: nat)
    requires ref.prNumber == NatToDecimal(n)
    requires lookup(ref.repoOwner, ref.repoName, n) == Ok(Some([issue]))
    ensures CollectIssues([ref], lookup) == Ok([LinkedIssue(issue, ref.repoOwner, ref.repoName)])
  {
    DecimalRoundTrip(n);
    assert [ref][1..] == [];
    assert CollectIssues([], lookup) == Ok([]);
    var first := LinkedIssues(Some([issue]), ref.repoOwner, ref.repoName);
    assert first == [LinkedIssue(issue, ref.repoOwner, ref.repoName)];
    assert first + [] == first;
  }

  lemma CommentOne(issue: LinkedIssue, body: string, env: Env)
    ensures Comment([issue], issue.repoOwner, issue.repoName, body, env).attempts == [CommentStep(issue, body)]
  {
    assert [issue][1..] == [];
  }
}
