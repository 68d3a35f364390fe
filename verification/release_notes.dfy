/**
 Pull-request references in release notes (`src/utils/releaseNotes.js`): each
 inline token of the parsed notes contributes the first URL it contains, when
 that URL ends in a pull-request number; duplicates are dropped keeping the
 first occurrence.

 The markdown parser is a foreign library: the model starts from the contents
 of the inline tokens it yields.
 */
module ReleaseNotes {
  import opened JsText
  import opened Workflow

  /** A reference to a pull request: its number (as the digits of the URL),
      the owner and the repository. */
  datatype PrRef = PrRef(prNumber: string, repoOwner: string, repoName: string)

  /** `\w` of a regular expression without the `u` flag. */
  predicate IsWordChar(c: char) {
    'a' <= c <= 'z' || 'A' <= c <= 'Z' || '0' <= c <= '9' || c == '_'
  }

  /** `\s`: the ECMAScript white space and line terminators. */
  predicate IsJsSpace(c: char) {
    || c == '\t' || c == '\n' || c == '\U{B}' || c == '\U{C}' || c == '\r' || c == ' '
    || c == '\U{A0}' || c == '\U{1680}' || '\U{2000}' <= c <= '\U{200A}'
    || c == '\U{2028}' || c == '\U{2029}' || c == '\U{202F}' || c == '\U{205F}'
    || c == '\U{3000}' || c == '\U{FEFF}'
  }

  /** The length of `https?://` matched at `i`, letters in any case, or 0. */
  function SchemeLength(s: string, i: nat): (r: nat)
    ensures r == 0 || r == 7 || r == 8
    ensures r > 0 ==> i + r <= |s| && s[i + r - 3..i + r] == "://" && Lower(s[i..i + 4]) == "http"
    ensures r == 8 ==> LowerAscii(s[i + 4]) == 's'
    ensures r == 8 <==> i + 8 <= |s| && Lower(s[i..i + 8]) == "https://"
    ensures r == 7 <==> i + 7 <= |s| && Lower(s[i..i + 7]) == "http://"
  {
    SchemeWindows(s, i);
    if i + 7 > |s| || Lower(s[i..i + 4]) != "http" then 0
    else if LowerAscii(s[i + 4]) == 's' then
      (if i + 8 <= |s| && s[i + 5..i + 8] == "://" then 8 else 0)
    else if s[i + 4..i + 7] == "://" then 7
    else 0
  }

  /** Folding case maps nothing but `d` itself onto a character `d` that is
      not a letter. */
  lemma FoldsOnlyItself(c: char, d: char)
    requires !('a' <= d <= 'z') && !('A' <= d <= 'Z')
    ensures LowerAscii(c) == d <==> c == d
  {
    if 'A' <= c <= 'Z' {
      assert 'a' as int <= LowerAscii(c) as int <= 'z' as int;
    }
  }

  /** Two strings agree once folded exactly when they agree character by
      character once folded. */
  lemma LowerEquals(w: string, pat: string)
    ensures Lower(w) == pat <==> |w| == |pat| && forall k :: 0 <= k < |w| ==> LowerAscii(w[k]) == pat[k]
  {
    if |w| == |pat| && forall k :: 0 <= k < |w| ==> LowerAscii(w[k]) == pat[k] {
      assert forall k :: 0 <= k < |w| ==> Lower(w)[k] == pat[k];
    }
  }

  /** The scheme windows of `https://` and `http://`, part by part. */
  lemma SchemeWindows(s: string, i: nat)
    ensures i + 8 <= |s| ==>
      (Lower(s[i..i + 8]) == "https://" <==>
         Lower(s[i..i + 4]) == "http" && LowerAscii(s[i + 4]) == 's' && s[i + 5..i + 8] == "://")
    ensures i + 7 <= |s| ==>
      (Lower(s[i..i + 7]) == "http://" <==>
         Lower(s[i..i + 4]) == "http" && s[i + 4..i + 7] == "://")
  {
    if i + 8 <= |s| {
      SecureWindow(s, i);
    }
    if i + 7 <= |s| {
      PlainWindow(s, i);
    }
  }

  lemma HttpWindow(s: string, i: nat)
    requires i + 4 <= |s|
    ensures Lower(s[i..i + 4]) == "http" <==> forall k :: 0 <= k < 4 ==> LowerAscii(s[i + k]) == "http"[k]
  {
    var w := s[i..i + 4];
    LowerEquals(w, "http");
    assert forall k :: 0 <= k < 4 ==> w[k] == s[i + k];
  }

  lemma SecureWindow(s: string, i: nat)
    requires i + 8 <= |s|
    ensures Lower(s[i..i + 8]) == "https://" <==>
      Lower(s[i..i + 4]) == "http" && LowerAscii(s[i + 4]) == 's' && s[i + 5..i + 8] == "://"
  {
    var w := s[i..i + 8];
    LowerEquals(w, "https://");
    HttpWindow(s, i);
    assert forall k :: 0 <= k < 8 ==> w[k] == s[i + k];
    assert s[i + 5..i + 8] == "://" <==> s[i + 5] == ':' && s[i + 6] == '/' && s[i + 7] == '/';
    FoldsOnlyItself(s[i + 5], ':');
    FoldsOnlyItself(s[i + 6], '/');
    FoldsOnlyItself(s[i + 7], '/');
  }

  lemma PlainWindow(s: string, i: nat)
    requires i + 7 <= |s|
    ensures Lower(s[i..i + 7]) == "http://" <==> Lower(s[i..i + 4]) == "http" && s[i + 4..i + 7] == "://"
  {
    var w := s[i..i + 7];
    LowerEquals(w, "http://");
    HttpWindow(s, i);
    assert forall k :: 0 <= k < 7 ==> w[k] == s[i + k];
    assert s[i + 4..i + 7] == "://" <==> s[i + 4] == ':' && s[i + 5] == '/' && s[i + 6] == '/';
    FoldsOnlyItself(s[i + 4], ':');
    FoldsOnlyItself(s[i + 5], '/');
    FoldsOnlyItself(s[i + 6], '/');
  }

  /** `\bhttps?:\/\/\S` matches at `i`. */
  predicate UrlStartsAt(s: string, i: int) {
    && 0 <= i < |s|
    && (i == 0 || !IsWordChar(s[i - 1]))
    && SchemeLength(s, i) > 0
    && i + SchemeLength(s, i) < |s|
    && !IsJsSpace(s[i + SchemeLength(s, i)])
  }

  /** The first index at or after `from` where a URL starts, or -1. */
  function UrlFrom(s: string, from: nat): (r: int)
    ensures r == -1 || (from <= r && UrlStartsAt(s, r))
    ensures forall i :: from <= i && (r == -1 || i < r) ==> !UrlStartsAt(s, i)
    decreases |s| - from
  {
    if from >= |s| then -1
    else if UrlStartsAt(s, from) then from
    else UrlFrom(s, from + 1)
  }

  /** The end of the run of non-white-space characters that starts at `j`. */
  function RunEnd(s: string, j: nat): (r: nat)
    requires j <= |s|
    ensures j <= r <= |s|
    ensures forall k :: j <= k < r ==> !IsJsSpace(s[k])
    ensures r == |s| || IsJsSpace(s[r])
    decreases |s| - j
  {
    if j == |s| || IsJsSpace(s[j]) then j else RunEnd(s, j + 1)
  }

  /** `content.match(/\bhttps?:\/\/\S+/gi)?.[0]`: the leftmost URL, extended
      over every non-white-space character that follows. */
  function FirstUrl(content: string): (r: Option<string>)
    ensures r.None? <==> forall i :: !UrlStartsAt(content, i)
    ensures r.Some? ==> exists i ::
      && UrlStartsAt(content, i)
      && (forall j :: 0 <= j < i ==> !UrlStartsAt(content, j))
      && r.value == content[i..RunEnd(content, i)]
  {
    var i := UrlFrom(content, 0);
    if i == -1 then None else Some(content[i..RunEnd(content, i)])
  }

  /** The pull-request reference of a URL: split on '/', the owner and the
      repository are the fourth and fifth parts and must be non-empty, and the
      last part must be a non-empty run of decimal digits. */
  function RefOfUrl(url: string): (r: Option<PrRef>)
    ensures r.Some? ==>
      && |r.value.prNumber| > 0 && IsDigits(r.value.prNumber)
      && |r.value.repoOwner| > 0 && |r.value.repoName| > 0
      && '/' !in r.value.prNumber && '/' !in r.value.repoOwner && '/' !in r.value.repoName
    ensures var parts := Split(url, '/');
      r.Some? <==> |parts| > 4 && |parts[3]| > 0 && |parts[4]| > 0
                   && |parts[|parts| - 1]| > 0 && IsDigits(parts[|parts| - 1])
    ensures var parts := Split(url, '/');
      r.Some? ==> r.value == PrRef(parts[|parts| - 1], parts[3], parts[4])
  {
    var parts := Split(url, '/');
    var last := parts[|parts| - 1];
    if |last| > 0 && IsDigits(last) && |parts| > 4 && |parts[3]| > 0 && |parts[4]| > 0 then
      Some(PrRef(last, parts[3], parts[4]))
    else None
  }

  /** The reference one inline token contributes, if any. */
  function RefOfToken(content: string): (r: Option<PrRef>)
    ensures FirstUrl(content).None? ==> r.None?
    ensures r.Some? ==> && |r.value.prNumber| > 0 && IsDigits(r.value.prNumber)
                        && |r.value.repoOwner| > 0 && |r.value.repoName| > 0
  {
    match FirstUrl(content)
    case None => None
    case Some(url) => RefOfUrl(url)
  }

  /** A URL given as its '/'-separated parts yields a reference exactly when
      it has at least five parts, the fourth and fifth are non-empty and the
      last is a number; the host and the kind of page are not looked at. */
  lemma RefOfJoinedUrl(parts: seq<string>)
    requires |parts| > 4 && forall k :: 0 <= k < |parts| ==> '/' !in parts[k]
    ensures var last := parts[|parts| - 1];
      RefOfUrl(Join(parts, "/"))
        == if |parts[3]| > 0 && |parts[4]| > 0 && |last| > 0 && IsDigits(last)
           then Some(PrRef(last, parts[3], parts[4])) else None
  {
    SplitOfJoin(parts, '/');
  }

  /** The page of an issue is taken for a pull request as well: only the
      last part is checked for a number. */
  lemma IssueUrlRef(owner: string, repo: string, n: nat)
    requires '/' !in owner && '/' !in repo && |owner| > 0 && |repo| > 0
    ensures RefOfUrl("https://github.com/" + owner + "/" + repo + "/issues/" + NatToDecimal(n))
         == Some(PrRef(NatToDecimal(n), owner, repo))
  {
    var d := NatToDecimal(n);
    assert '/' !in d by {
      assert forall k :: 0 <= k < |d| ==> IsDigit(d[k]);
    }
    assert "https://github.com/" + owner + "/" + repo + "/issues/" + d
        == "https://github.com/" + owner + "/" + repo + "/" + "issues" + "/" + d;
    UrlSplit(owner, repo, "issues", d);
  }

  /** The values `extract` finds in the tokens, in the order of the tokens. */
  function Gather(tokens: seq<string>, extract: string -> Option<PrRef>): (r: seq<PrRef>)
    ensures forall p :: p in r <==> exists t :: t in tokens && extract(t) == Some(p)
    ensures |r| <= |tokens|
  {
    if |tokens| == 0 then []
    else
      var rest := Gather(tokens[1..], extract);
      assert forall t :: t in tokens <==> t == tokens[0] || t in tokens[1..];
      Own(extract(tokens[0])) + rest
  }

  function Own(r: Option<PrRef>): (s: seq<PrRef>)
    ensures forall p :: p in s <==> r == Some(p)
    ensures |s| <= 1
  {
    if r.Some? then [r.value] else []
  }

  lemma {:induction false} GatherAppend(a: seq<string>, b: seq<string>, extract: string -> Option<PrRef>)
    ensures Gather(a + b, extract) == Gather(a, extract) + Gather(b, extract)
  {
    if |a| == 0 {
      assert a + b == b;
    } else {
      assert (a + b)[0] == a[0];
      assert (a + b)[1..] == a[1..] + b;
      GatherAppend(a[1..], b, extract);
    }
  }

  /** The references of the tokens, in order, before duplicates are dropped. */
  function Collect(tokens: seq<string>): (r: seq<PrRef>)
    ensures forall p :: p in r <==> exists t :: t in tokens && RefOfToken(t) == Some(p)
    ensures |r| <= |tokens|
  {
    Gather(tokens, RefOfToken)
  }

  /** Collecting keeps the order of the tokens: the references of two runs of
      tokens are those of the first run followed by those of the second. */
  lemma CollectAppend(a: seq<string>, b: seq<string>)
    ensures Collect(a + b) == Collect(a) + Collect(b)
  {
    GatherAppend(a, b, RefOfToken);
  }

  /** One token contributes its reference, if it has one. */
  lemma CollectOneToken(t: string)
    ensures Collect([t]) == Own(RefOfToken(t))
  {
    assert [t][1..] == [];
  }

  /** No element occurs twice. */
  predicate Distinct(xs: seq<PrRef>) {
    forall i, j :: 0 <= i < j < |xs| ==> xs[i] != xs[j]
  }

  /** The index of the first occurrence of `x`. */
  function FirstIndex(xs: seq<PrRef>, x: PrRef): (r: nat)
    requires x in xs
    ensures r < |xs| && xs[r] == x && x !in xs[..r]
  {
    if xs[0] == x then 0
    else
      assert x in xs[1..];
      var k := FirstIndex(xs[1..], x);
      assert xs[..k + 1] == [xs[0]] + xs[1..][..k];
      k + 1
  }

  /** `uniqWith(xs, isEqual)`: the first occurrence of each element, in
      order. */
  function Dedupe(xs: seq<PrRef>): (r: seq<PrRef>)
    ensures Distinct(r)
    ensures forall x :: x in r <==> x in xs
    ensures |r| <= |xs|
  {
    if |xs| == 0 then []
    else
      var init := xs[..|xs| - 1];
      var d := Dedupe(init);
      var x := xs[|xs| - 1];
      assert xs == init + [x];
      if x in d then d else d + [x]
  }

  /** The exported function: the references of the release notes' inline
      tokens, without duplicates. */
  function PrRefs(tokens: seq<string>): (r: seq<PrRef>)
    ensures Distinct(r)
    ensures forall p :: p in r <==> exists t :: t in tokens && RefOfToken(t) == Some(p)
  {
    Dedupe(Collect(tokens))
  }

  /** The first occurrences keep their order: of two kept elements, the one
      that occurs first in the input comes first. */
  lemma {:induction false} DedupeKeepsOrder(xs: seq<PrRef>, i: nat, j: nat)
    requires i < j < |Dedupe(xs)|
    ensures FirstIndex(xs, Dedupe(xs)[i]) < FirstIndex(xs, Dedupe(xs)[j])
  {
    var init := xs[..|xs| - 1];
    var d := Dedupe(init);
    var x := xs[|xs| - 1];
    assert xs == init + [x];
    var r := Dedupe(xs);
    assert r[i] in init by {
      assert r[i] in d;
    }
    FirstIndexPrefix(init, x, r[i]);
    if j < |d| {
      DedupeKeepsOrder(init, i, j);
      FirstIndexPrefix(init, x, r[j]);
    } else {
      assert r[j] == x && x !in d;
      assert xs[..|xs| - 1] == init;
      FirstIndexUnique(xs, x, |xs| - 1);
    }
  }

  /** The first index is the one occurrence with no occurrence before it. */
  lemma FirstIndexUnique(xs: seq<PrRef>, x: PrRef, k: nat)
    requires k < |xs| && xs[k] == x && x !in xs[..k]
    ensures FirstIndex(xs, x) == k
  {
    var r := FirstIndex(xs, x);
    forall i | 0 <= i < k
      ensures xs[i] != x
    {
      assert xs[..k][i] == xs[i];
    }
    forall i | 0 <= i < r
      ensures xs[i] != x
    {
      assert xs[..r][i] == xs[i];
    }
  }

  /** An element of a prefix has the same first index in the whole sequence. */
  lemma FirstIndexPrefix(init: seq<PrRef>, x: PrRef, y: PrRef)
    requires y in init
    ensures FirstIndex(init + [x], y) == FirstIndex(init, y)
  {
    var xs := init + [x];
    var k := FirstIndex(init, y);
    assert xs[..k] == init[..k];
    FirstIndexUnique(xs, y, k);
  }

  /** A sequence without duplicates is left as it is. */
  lemma {:induction false} DedupeOfDistinct(xs: seq<PrRef>)
    requires Distinct(xs)
    ensures Dedupe(xs) == xs
  {
    if |xs| > 0 {
      var init := xs[..|xs| - 1];
      assert Distinct(init);
      DedupeOfDistinct(init);
      assert xs[|xs| - 1] !in init;
      assert xs == init + [xs[|xs| - 1]];
    }
  }

  /** Dropping duplicates twice is dropping them once. */
  lemma DedupeIdempotent(xs: seq<PrRef>)
    ensures Dedupe(Dedupe(xs)) == Dedupe(xs)
  {
    DedupeOfDistinct(Dedupe(xs));
  }

  /** A string with no separator splits into itself. */
  lemma {:induction false} SplitWhole(a: string, sep: char)
    requires sep !in a
    ensures Split(a, sep) == [a]
  {
    if |a| > 0 {
      assert sep !in a[1..];
      SplitWhole(a[1..], sep);
    }
  }

  /** Splitting at the first separator. */
  lemma {:induction false} SplitFirst(a: string, b: string, sep: char)
    requires sep !in a
    ensures Split(a + [sep] + b, sep) == [a] + Split(b, sep)
  {
    var s := a + [sep] + b;
    if |a| == 0 {
      assert s == [sep] + b;
      assert s[1..] == b;
    } else {
      assert s[1..] == a[1..] + [sep] + b;
      assert sep !in a[1..];
      SplitFirst(a[1..], b, sep);
      assert [a[0]] + a[1..] == a;
    }
  }

  /** Splitting the parts joined with the separator gives the parts back. */
  lemma {:induction false} SplitOfJoin(parts: seq<string>, sep: char)
    requires |parts| > 0
    requires forall k :: 0 <= k < |parts| ==> sep !in parts[k]
    ensures Split(Join(parts, [sep]), sep) == parts
  {
    if |parts| == 1 {
      SplitWhole(parts[0], sep);
    } else {
      SplitOfJoin(parts[1..], sep);
      SplitFirst(parts[0], Join(parts[1..], [sep]), sep);
      assert [parts[0]] + parts[1..] == parts;
    }
  }

  /** The parts of a GitHub URL of a repository page. */
  function UrlParts(owner: string, repo: string, kind: string, last: string): seq<string> {
    ["https:", "", "github.com", owner, repo, kind, last]
  }

  /** A GitHub URL of a repository page, as its parts joined by '/'. */
  lemma UrlJoin(owner: string, repo: string, kind: string, last: string)
    ensures Join(UrlParts(owner, repo, kind, last), "/")
         == "https://github.com/" + owner + "/" + repo + "/" + kind + "/" + last
  {
    var ps := UrlParts(owner, repo, kind, last);
    var t5 := kind + "/" + last;
    var t4 := repo + "/" + t5;
    var t3 := owner + "/" + t4;
    assert Join(ps[5..], "/") == t5 by {
      assert ps[5..][1..] == [last];
    }
    assert Join(ps[4..], "/") == t4 by {
      assert ps[4..][1..] == ps[5..];
    }
    assert Join(ps[3..], "/") == t3 by {
      assert ps[3..][1..] == ps[4..];
    }
    assert Join(ps[2..], "/") == "github.com" + "/" + t3 by {
      assert ps[2..][1..] == ps[3..];
    }
    assert Join(ps[1..], "/") == "" + "/" + ("github.com" + "/" + t3) by {
      assert ps[1..][1..] == ps[2..];
    }
    assert Join(ps, "/") == "https:" + "/" + ("" + "/" + ("github.com" + "/" + t3));
    assert "https:" + "/" + ("" + "/" + ("github.com" + "/" + t3)) == "https://github.com/" + t3;
    assert "https://github.com/" + t3 == "https://github.com/" + owner + "/" + repo + "/" + kind + "/" + last;
  }

  /** The parts of a GitHub URL whose own parts hold no '/'. */
  lemma UrlSplit(owner: string, repo: string, kind: string, last: string)
    requires '/' !in owner && '/' !in repo && '/' !in kind && '/' !in last
    ensures Split("https://github.com/" + owner + "/" + repo + "/" + kind + "/" + last, '/')
         == UrlParts(owner, repo, kind, last)
  {
    var ps := UrlParts(owner, repo, kind, last);
    UrlJoin(owner, repo, kind, last);
    assert forall k :: 0 <= k < |ps| ==> '/' !in ps[k] by {
      assert '/' !in "https:" && '/' !in "github.com";
    }
    SplitOfJoin(ps, '/');
  }

  /** The URL of a pull request as GitHub writes it. */
  function PullUrl(owner: string, repo: string, n: nat): string {
    "https://github.com/" + owner + "/" + repo + "/pull/" + NatToDecimal(n)
  }

  /** A pull-request URL yields its owner, repository and number. */
  lemma PullUrlRef(owner: string, repo: string, n: nat)
    requires '/' !in owner && '/' !in repo && |owner| > 0 && |repo| > 0
    ensures RefOfUrl(PullUrl(owner, repo, n)) == Some(PrRef(NatToDecimal(n), owner, repo))
  {
    var d := NatToDecimal(n);
    assert '/' !in d by {
      assert forall k :: 0 <= k < |d| ==> IsDigit(d[k]);
    }
    assert PullUrl(owner, repo, n) == "https://github.com/" + owner + "/" + repo + "/" + "pull" + "/" + d;
    UrlSplit(owner, repo, "pull", d);
  }

  /** A compare link such as `.../compare/v1.0.20...v1.1.0` yields nothing:
      its last part is not a number. */
  lemma CompareUrlIgnored(owner: string, repo: string, range: string)
    requires '/' !in owner && '/' !in repo && '/' !in range
    requires |range| > 0 && range[0] == 'v'
    ensures RefOfUrl("https://github.com/" + owner + "/" + repo + "/compare/" + range) == None
  {
    assert "https://github.com/" + owner + "/" + repo + "/compare/" + range
        == "https://github.com/" + owner + "/" + repo + "/" + "compare" + "/" + range;
    UrlSplit(owner, repo, "compare", range);
    assert !IsDigit(range[0]);
  }

  /** No white space in `s`. */
  predicate NoSpace(s: string) {
    forall k :: 0 <= k < |s| ==> !IsJsSpace(s[k])
  }

  lemma NoSpaceConcat(a: string, b: string)
    requires NoSpace(a) && NoSpace(b)
    ensures NoSpace(a + b)
  {
    forall k | 0 <= k < |a + b|
      ensures !IsJsSpace((a + b)[k])
    {
      if k >= |a| {
        assert (a + b)[k] == b[k - |a|];
      }
    }
  }

  lemma PullUrlNoSpace(owner: string, repo: string, n: nat)
    requires NoSpace(owner) && NoSpace(repo)
    ensures NoSpace(PullUrl(owner, repo, n))
  {
    var d := NatToDecimal(n);
    assert NoSpace("https://github.com/");
    assert NoSpace("/");
    assert NoSpace("/pull/");
    assert NoSpace(d) by {
      assert forall k :: 0 <= k < |d| ==> IsDigit(d[k]);
    }
    NoSpaceConcat("https://github.com/", owner);
    NoSpaceConcat("https://github.com/" + owner, "/");
    NoSpaceConcat("https://github.com/" + owner + "/", repo);
    NoSpaceConcat("https://github.com/" + owner + "/" + repo, "/pull/");
    NoSpaceConcat("https://github.com/" + owner + "/" + repo + "/pull/", d);
  }

  /** A URL starts right after a prefix ending in a space. */
  lemma StartsAfterPrefix(prefix: string, url: string)
    requires |prefix| > 0 && prefix[|prefix| - 1] == ' '
    requires |url| > 8 && url[..8] == "https://" && NoSpace(url)
    ensures UrlStartsAt(prefix + url, |prefix|)
  {
    var content := prefix + url;
    var p := |prefix|;
    assert content[p..p + 8] == url[..8];
    assert content[p..p + 4] == "http" by {
      assert content[p..p + 4] == url[..8][..4];
    }
    assert content[p + 5..p + 8] == "://" by {
      assert content[p + 5..p + 8] == url[..8][5..];
    }
    assert content[p + 4] == 's' by {
      assert content[p + 4] == url[..8][4];
    }
    assert Lower("http") == "http";
    assert SchemeLength(content, p) == 8;
    assert content[p + 8] == url[8];
  }

  /** No URL starts inside a prefix that has no colon and ends in a space. */
  lemma NoStartInPrefix(prefix: string, url: string)
    requires |prefix| > 0 && prefix[|prefix| - 1] == ' ' && ':' !in prefix
    requires |url| > 8 && url[0] == 'h'
    ensures forall i :: 0 <= i < |prefix| ==> !UrlStartsAt(prefix + url, i)
  {
    var content := prefix + url;
    var p := |prefix|;
    forall i | 0 <= i < p
      ensures SchemeLength(content, i) == 0
    {
      if i + 5 < p {
        assert content[i + 4] == prefix[i + 4] && content[i + 5] == prefix[i + 5];
      } else if i + 5 == p {
        assert content[i + 4] == ' ' && content[i + 5] == 'h';
      } else {
        assert Lower(content[i..i + 4])[p - 1 - i] == ' ';
      }
    }
  }

  /** The URL of a token whose text before the URL ends with a space and has
      no colon is the whole rest of the token. */
  lemma UrlAfterPrefix(prefix: string, url: string)
    requires |prefix| > 0 && prefix[|prefix| - 1] == ' ' && ':' !in prefix
    requires |url| > 8 && url[..8] == "https://" && NoSpace(url)
    ensures FirstUrl(prefix + url) == Some(url)
  {
    var content := prefix + url;
    var p := |prefix|;
    assert url[0] == url[..8][0];
    StartsAfterPrefix(prefix, url);
    NoStartInPrefix(prefix, url);
    FirstStart(content, p);
    assert forall k :: p <= k < |content| ==> content[k] == url[k - p];
    RunToEnd(content, p);
    assert content[p..|content|] == url;
    assert FirstUrl(content) == Some(content[p..RunEnd(content, p)]);
  }

  lemma FirstStart(s: string, p: nat)
    requires UrlStartsAt(s, p) && forall i :: 0 <= i < p ==> !UrlStartsAt(s, i)
    ensures UrlFrom(s, 0) == p
  {
  }

  lemma RunToEnd(s: string, p: nat)
    requires p <= |s| && forall k :: p <= k < |s| ==> !IsJsSpace(s[k])
    ensures RunEnd(s, p) == |s|
  {
  }

  /** A line of generated release notes, such as `* fix by @someone in
      https://github.com/owner/repo/pull/42`, yields the reference of its
      pull-request URL, provided the text before the URL ends with a space
      and has no colon. */
  lemma TokenRef(prefix: string, owner: string, repo: string, n: nat)
    requires |prefix| > 0 && prefix[|prefix| - 1] == ' ' && ':' !in prefix
    requires '/' !in owner && '/' !in repo && |owner| > 0 && |repo| > 0
    requires NoSpace(owner) && NoSpace(repo)
    ensures RefOfToken(prefix + PullUrl(owner, repo, n)) == Some(PrRef(NatToDecimal(n), owner, repo))
  {
    var url := PullUrl(owner, repo, n);
    assert url[..8] == "https://";
    PullUrlNoSpace(owner, repo, n);
    UrlAfterPrefix(prefix, url);
    PullUrlRef(owner, repo, n);
  }
}
