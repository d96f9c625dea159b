/**
 * Repository-location helpers of util/repos/repos.go: prefix and suffix
 * handling, SSH detection, URL normalisation and comparison, and the
 * backend dispatch of the client factory.
 *
 * `url.Parse` followed by `URL.String()` is not modelled: every function
 * that needs it takes it as a parameter `canon`, which yields `None` where
 * parsing fails and the re-serialised URL otherwise.
 */
module Repos {
  import opened Wrappers
  import opened Strings

  type UrlCanonicalizer = string -> Option<string>

  /** `ensurePrefix`: puts `prefix` in front of `s` unless `s` already starts with it. */
  function EnsurePrefix(s: string, prefix: string): (r: string)
    ensures HasPrefix(r, prefix)
    ensures HasPrefix(s, prefix) ==> r == s
    ensures !HasPrefix(s, prefix) ==> r == prefix + s
  {
    if !HasPrefix(s, prefix) then prefix + s else s
  }

  lemma EnsurePrefixIdempotent(s: string, prefix: string)
    ensures EnsurePrefix(EnsurePrefix(s, prefix), prefix) == EnsurePrefix(s, prefix)
  {
  }

  /** The table of TestEnsurePrefix. */
  lemma EnsurePrefixTestVectors()
    ensures EnsurePrefix("world", "hello") == "helloworld"
    ensures EnsurePrefix("helloworld", "hello") == "helloworld"
    ensures EnsurePrefix("example.com", "https://") == "https://example.com"
    ensures EnsurePrefix("https://example.com", "https://") == "https://example.com"
    ensures EnsurePrefix("cd", "argo") == "argocd"
    ensures EnsurePrefix("argocd", "argo") == "argocd"
    ensures EnsurePrefix("", "argocd") == "argocd"
    ensures EnsurePrefix("argocd", "") == "argocd"
  {
    assert "world"[0] != "hello"[0];
    assert "example.com"[0] != "https://"[0];
    assert "cd"[0] != "argo"[0];
    assert "hello" <= "helloworld";
    assert "https://" <= "https://example.com";
    assert "argo" <= "argocd";
  }

  /** `removeSuffix`: drops one occurrence of `suffix` from the end of `s`. */
  function RemoveSuffix(s: string, suffix: string): (r: string)
    ensures HasSuffix(s, suffix) ==> r + suffix == s
    ensures !HasSuffix(s, suffix) ==> r == s
  {
    if HasSuffix(s, suffix) then s[0..|s| - |suffix|] else s
  }

  /** Removing a suffix undoes appending it. */
  lemma RemoveSuffixOfAppended(s: string, suffix: string)
    ensures RemoveSuffix(s + suffix, suffix) == s
  {
    assert (s + suffix)[|s + suffix| - |suffix|..] == suffix;
    assert (s + suffix)[..|s + suffix| - |suffix|] == s;
  }

  /** The table of TestRemoveSuffix. */
  lemma RemoveSuffixTestVectors()
    ensures RemoveSuffix("hello.git", ".git") == "hello"
    ensures RemoveSuffix("hello", ".git") == "hello"
    ensures RemoveSuffix(".git", ".git") == ""
  {
    assert "hello.git"[5..] == ".git";
    assert "hello"[1..] != ".git";
  }

  /** Only one suffix goes: `removeSuffix` is not idempotent. */
  lemma RemoveSuffixRemovesOnce()
    ensures RemoveSuffix("a.git.git", ".git") == "a.git"
    ensures RemoveSuffix(RemoveSuffix("a.git.git", ".git"), ".git") == "a"
  {
    assert "a.git.git"[5..] == ".git";
    assert "a.git"[1..] == ".git";
  }

  /** `IsSSHURL`. */
  predicate IsSSHURL(url: string) {
    HasPrefix(url, "git@") || HasPrefix(url, "ssh://")
  }

  /** The table of TestIsSSHURL. */
  lemma IsSSHURLTestVectors()
    ensures !IsSSHURL("git://github.com/argoproj/test.git")
    ensures IsSSHURL("git@GITHUB.com:argoproj/test.git")
    ensures IsSSHURL("git@github.com:test")
    ensures IsSSHURL("git@github.com:test.git")
    ensures !IsSSHURL("https://github.com/argoproj/test")
    ensures !IsSSHURL("https://github.com/argoproj/test.git")
    ensures IsSSHURL("ssh://git@GITHUB.com:argoproj/test")
    ensures IsSSHURL("ssh://git@GITHUB.com:argoproj/test.git")
    ensures IsSSHURL("ssh://git@github.com:test.git")
  {
    assert "git://github.com/argoproj/test.git"[3] != "git@"[3];
    assert "git://github.com/argoproj/test.git"[0] != "ssh://"[0];
    assert "https://github.com/argoproj/test"[0] != "git@"[0];
    assert "https://github.com/argoproj/test"[0] != "ssh://"[0];
    assert "https://github.com/argoproj/test.git"[0] != "git@"[0];
    assert "https://github.com/argoproj/test.git"[0] != "ssh://"[0];
    assert "git@" <= "git@GITHUB.com:argoproj/test.git";
    assert "git@" <= "git@github.com:test";
    assert "git@" <= "git@github.com:test.git";
    assert "ssh://" <= "ssh://git@GITHUB.com:argoproj/test";
    assert "ssh://" <= "ssh://git@GITHUB.com:argoproj/test.git";
    assert "ssh://" <= "ssh://git@github.com:test.git";
  }

  /** The first step of `NormalizeURL`: surrounding white space removed, letters lower-cased. */
  function Lowered(repo: string): string {
    ToLower(TrimSpace(repo))
  }

  /** The second step: SSH locations get an explicit `ssh://` scheme. */
  function WithScheme(lowered: string): string {
    if IsSSHURL(lowered) then EnsurePrefix(lowered, "ssh://") else lowered
  }

  /** The string `NormalizeURL` hands to the URL parser: one `.git` suffix removed as the third step. */
  function Prepared(repo: string): string {
    RemoveSuffix(WithScheme(Lowered(repo)), ".git")
  }

  /** `NormalizeURL`: the empty string when parsing fails. */
  function NormalizeURL(repo: string, canon: UrlCanonicalizer): string {
    match canon(Prepared(repo))
    case None => ""
    case Some(normalized) => TrimPrefix(normalized, "ssh://")
  }

  /** `SameURL`. */
  predicate SameURL(leftRepo: string, rightRepo: string, canon: UrlCanonicalizer) {
    NormalizeURL(leftRepo, canon) == NormalizeURL(rightRepo, canon)
  }

  /** Whatever the parser, two locations whose prepared strings agree are the same URL. */
  lemma SamePreparedIsSameURL(a: string, b: string, canon: UrlCanonicalizer)
    requires Prepared(a) == Prepared(b)
    ensures SameURL(a, b, canon)
  {
  }

  lemma SameURLIsEquivalence(a: string, b: string, c: string, canon: UrlCanonicalizer)
    ensures SameURL(a, a, canon)
    ensures SameURL(a, b, canon) ==> SameURL(b, a, canon)
    ensures SameURL(a, b, canon) && SameURL(b, c, canon) ==> SameURL(a, c, canon)
  {
  }

  /** Two locations the parser rejects both normalise to "" and so compare equal. */
  lemma MalformedURLsCompareEqual(a: string, b: string, canon: UrlCanonicalizer)
    requires canon(Prepared(a)).None? && canon(Prepared(b)).None?
    ensures NormalizeURL(a, canon) == "" && SameURL(a, b, canon)
  {
  }

  /** A string that starts with `ssh://` keeps that prefix when one `.git` is removed from it. */
  lemma {:induction false} RemoveGitSuffixKeepsScheme(s: string)
    requires HasPrefix(s, "ssh://")
    ensures HasPrefix(RemoveSuffix(s, ".git"), "ssh://")
  {
    if HasSuffix(s, ".git") {
      assert s[|s| - 4] == '.';
      assert forall k :: 0 <= k < 6 ==> s[k] == "ssh://"[k];
      assert |s| - 4 >= 6;
      assert RemoveSuffix(s, ".git")[..6] == s[..6];
    }
  }

  /** For an SSH location the parser is always handed an `ssh://` URL. */
  lemma {:induction false} SSHLocationsAreParsedWithScheme(repo: string)
    requires IsSSHURL(Lowered(repo))
    ensures HasPrefix(Prepared(repo), "ssh://")
  {
    RemoveGitSuffixKeepsScheme(WithScheme(Lowered(repo)));
  }

  /** Lower-casing and trimming a second time changes nothing. */
  lemma {:induction false} LoweredIsIdempotent(repo: string)
    ensures Lowered(Lowered(repo)) == Lowered(repo)
  {
    var trimmed := TrimSpace(repo);
    ToLowerKeepsTrimmed(trimmed);
    assert TrimSpace(ToLower(trimmed)) == ToLower(trimmed);
    ToLowerIdempotent(trimmed);
  }

  /** Letter case and surrounding white space never matter. */
  lemma {:induction false} NormalizeIgnoresCaseAndSpace(repo: string, canon: UrlCanonicalizer)
    ensures Prepared(Lowered(repo)) == Prepared(repo)
    ensures NormalizeURL(repo, canon) == NormalizeURL(Lowered(repo), canon)
  {
    LoweredIsIdempotent(repo);
    SamePreparedIsSameURL(repo, Lowered(repo), canon);
  }

  /** The scp-like shorthand `git@host:path` and its `ssh://git@host:path` form are the same URL. */
  lemma {:induction false} SSHShorthandCollapses(repo: string, canon: UrlCanonicalizer)
    requires Trimmed(repo)
    requires HasPrefix(ToLower(repo), "git@")
    ensures Prepared("ssh://" + repo) == Prepared(repo)
    ensures SameURL("ssh://" + repo, repo, canon)
  {
    PreparedOfExplicitSSH(repo);
    PreparedOfShorthand(repo);
    SamePreparedIsSameURL("ssh://" + repo, repo, canon);
  }

  /** The `ssh://` form of a shorthand reaches the parser lower-cased, with its scheme. */
  lemma {:induction false} PreparedOfExplicitSSH(repo: string)
    requires Trimmed(repo)
    requires HasPrefix(ToLower(repo), "git@")
    ensures Prepared("ssh://" + repo) == RemoveSuffix("ssh://" + ToLower(repo), ".git")
  {
    var schemed := "ssh://" + ToLower(repo);
    LoweredWithSchemePrefix(repo);
    assert HasPrefix(schemed, "ssh://");
    assert WithScheme(schemed) == schemed;
  }

  /** The shorthand itself gets the `ssh://` scheme before it reaches the parser. */
  lemma {:induction false} PreparedOfShorthand(repo: string)
    requires Trimmed(repo)
    requires HasPrefix(ToLower(repo), "git@")
    ensures Prepared(repo) == RemoveSuffix("ssh://" + ToLower(repo), ".git")
  {
    var lowered := ToLower(repo);
    assert Lowered(repo) == lowered;
    assert IsSSHURL(lowered);
    assert lowered[0] == 'g';
    assert !HasPrefix(lowered, "ssh://");
    assert WithScheme(lowered) == "ssh://" + lowered;
  }

  lemma {:induction false} LoweredWithSchemePrefix(repo: string)
    requires Trimmed(repo) && repo != []
    ensures Lowered("ssh://" + repo) == "ssh://" + ToLower(repo)
  {
    var explicit := "ssh://" + repo;
    assert Trimmed(explicit) by {
      assert explicit[|explicit| - 1] == repo[|repo| - 1];
    }
    ToLowerConcat("ssh://", repo);
    assert ToLower("ssh://") == "ssh://";
  }

  /** Whether a string starts with `git@` or `ssh://` does not depend on a `.git` appended to it. */
  lemma SSHPrefixIgnoresSuffix(s: string)
    ensures IsSSHURL(s + ".git") <==> IsSSHURL(s)
    ensures HasPrefix(s + ".git", "ssh://") <==> HasPrefix(s, "ssh://")
  {
    var t := s + ".git";
    if |s| < 4 {
      assert t[|s|] == '.' && "git@"[|s|] != '.';
    } else {
      assert t[..4] == s[..4];
    }
    if |s| < 6 {
      assert t[|s|] == '.' && "ssh://"[|s|] != '.';
    } else {
      assert t[..6] == s[..6];
    }
  }

  /** A string that does not end in `.git` still does not once `ssh://` is put in front. */
  lemma PrefixKeepsNoGitSuffix(s: string)
    requires !HasSuffix(s, ".git")
    ensures !HasSuffix("ssh://" + s, ".git")
  {
    var t := "ssh://" + s;
    if |s| >= 4 {
      assert t[|t| - 4..] == s[|s| - 4..];
    } else {
      assert t[|t| - 4] == "ssh://"[|s| + 2] && t[|t| - 4] != '.';
    }
  }

  /** Appending `.git` to a trimmed location without that suffix does not change its prepared form. */
  lemma {:induction false} GitSuffixIsIgnored(repo: string, canon: UrlCanonicalizer)
    requires Trimmed(repo)
    requires !HasSuffix(ToLower(repo), ".git")
    ensures Prepared(repo + ".git") == Prepared(repo)
    ensures SameURL(repo + ".git", repo, canon)
  {
    var lowered := ToLower(repo);
    LoweredWithGitSuffix(repo);
    WithSchemeWithGitSuffix(lowered);
    WithSchemeKeepsNoGitSuffix(lowered);
    PreparedOfLowered(repo + ".git", lowered + ".git");
    PreparedOfLowered(repo, lowered);
    RemoveSuffixOfAppended(WithScheme(lowered), ".git");
    SamePreparedIsSameURL(repo + ".git", repo, canon);
  }

  /** The prepared form of a location depends on its trimmed, lower-case form only. */
  lemma PreparedOfLowered(repo: string, lowered: string)
    requires Lowered(repo) == lowered
    ensures Prepared(repo) == RemoveSuffix(WithScheme(lowered), ".git")
  {
  }

  /** Giving a location an `ssh://` scheme does not give it a `.git` suffix. */
  lemma WithSchemeKeepsNoGitSuffix(lowered: string)
    requires !HasSuffix(lowered, ".git")
    ensures !HasSuffix(WithScheme(lowered), ".git")
  {
    if WithScheme(lowered) != lowered {
      PrefixKeepsNoGitSuffix(lowered);
    }
  }

  lemma {:induction false} LoweredWithGitSuffix(repo: string)
    requires Trimmed(repo)
    ensures Lowered(repo + ".git") == ToLower(repo) + ".git"
    ensures Lowered(repo) == ToLower(repo)
  {
    assert Trimmed(repo + ".git");
    ToLowerConcat(repo, ".git");
    assert ToLower(".git") == ".git";
  }

  lemma {:induction false} WithSchemeWithGitSuffix(lowered: string)
    ensures WithScheme(lowered + ".git") == WithScheme(lowered) + ".git"
  {
    SSHPrefixIgnoresSuffix(lowered);
  }

  /**
   * Normalisation is not idempotent: for a plain location `stem` that the
   * parser re-serialises unchanged with and without one `.git`, a doubled
   * `.git` suffix loses one suffix per application.
   */
  lemma {:induction false} NormalizeIsNotIdempotent(stem: string, canon: UrlCanonicalizer)
    requires stem != [] && Trimmed(stem) && NoUpper(stem) && !IsSSHURL(stem)
    requires canon(stem + ".git") == Some(stem + ".git")
    requires canon(stem) == Some(stem)
    ensures NormalizeURL(stem + ".git.git", canon) == stem + ".git"
    ensures NormalizeURL(NormalizeURL(stem + ".git.git", canon), canon) == stem
  {
    var once := stem + ".git";
    assert stem + ".git.git" == once + ".git";
    assert Trimmed(once) && NoUpper(once);
    SSHPrefixIgnoresSuffix(stem);
    PreparedStripsOneGit(once);
    PreparedStripsOneGit(stem);
    assert !HasPrefix(stem, "ssh://");
  }

  /** A trimmed, lower-case, non-SSH location loses exactly the `.git` appended to it. */
  lemma {:induction false} PreparedStripsOneGit(url: string)
    requires url != [] && Trimmed(url) && NoUpper(url) && !IsSSHURL(url)
    ensures Prepared(url + ".git") == url
  {
    LoweredOfPlainURL(url);
    SSHPrefixIgnoresSuffix(url);
    RemoveSuffixOfAppended(url, ".git");
  }

  lemma {:induction false} LoweredOfPlainURL(url: string)
    requires url != [] && Trimmed(url) && NoUpper(url)
    ensures Lowered(url + ".git") == url + ".git"
  {
    LoweredWithGitSuffix(url);
    ToLowerOfNoUpper(url);
  }

  /**
   * A trimmed location that lower-cases to `stem` reaches the parser as
   * `stem.git` does, and so does the location with `.git` appended.
   */
  lemma {:induction false} CaseAndSuffixRows(up: string, stem: string, canon: UrlCanonicalizer)
    requires Trimmed(up) && ToLower(up) == stem && |up| >= 4 && up[|up| - 4] != '.'
    ensures Prepared(up) == Prepared(stem + ".git")
    ensures Prepared(up + ".git") == Prepared(up)
    ensures SameURL(up, stem + ".git", canon)
    ensures SameURL(up + ".git", stem + ".git", canon)
  {
    ToLowerKeepsTrimmed(up);
    ToLowerIdempotent(up);
    assert Lowered(up) == stem && Lowered(stem) == stem && ToLower(stem) == stem;
    NoGitSuffixAfterLower(up);
    GitSuffixIsIgnored(up, canon);
    GitSuffixIsIgnored(stem, canon);
    SamePreparedIsSameURL(up, stem + ".git", canon);
    SamePreparedIsSameURL(up + ".git", stem + ".git", canon);
  }

  /** The `ssh://` form of a shorthand that lower-cases to `stem`, with or without `.git`, is `stem.git`. */
  lemma {:induction false} SSHRows(up: string, stem: string, canon: UrlCanonicalizer)
    requires Trimmed(up) && ToLower(up) == stem && |up| >= 4 && up[|up| - 4] != '.'
    requires HasPrefix(stem, "git@")
    ensures SameURL("ssh://" + up, stem + ".git", canon)
    ensures SameURL("ssh://" + up + ".git", stem + ".git", canon)
  {
    var withGit := up + ".git";
    ShorthandWithGit(up, stem);
    CaseAndSuffixRows(up, stem, canon);
    SSHShorthandCollapses(up, canon);
    SSHShorthandCollapses(withGit, canon);
    SamePreparedIsSameURL("ssh://" + up, stem + ".git", canon);
    SamePreparedIsSameURL("ssh://" + withGit, stem + ".git", canon);
  }

  /** A trimmed shorthand keeps its shape once `.git` is appended. */
  lemma ShorthandWithGit(up: string, stem: string)
    requires Trimmed(up) && ToLower(up) == stem && HasPrefix(stem, "git@")
    ensures Trimmed(up + ".git") && HasPrefix(ToLower(up + ".git"), "git@")
    ensures "ssh://" + up + ".git" == "ssh://" + (up + ".git")
  {
    var withGit := up + ".git";
    ToLowerConcat(up, ".git");
    assert ToLower(".git") == ".git";
    assert ToLower(withGit)[..4] == stem[..4];
    assert withGit[0] == up[0] && withGit[|withGit| - 1] == 't';
  }

  /** A lower-case location padded with white space is the same URL as the location with `.git`. */
  lemma {:induction false} PaddedRow(pre: string, up: string, stem: string, post: string, canon: UrlCanonicalizer)
    requires forall k :: 0 <= k < |pre| ==> IsSpace(pre[k])
    requires forall k :: 0 <= k < |post| ==> IsSpace(post[k])
    requires ToLower(up) == stem
    requires Trimmed(stem) && |stem| >= 4 && stem[|stem| - 4] != '.'
    ensures SameURL(pre + stem + post, stem + ".git", canon)
  {
    ToLowerIdempotent(up);
    TrimSpaceOfPadded(pre, stem, post);
    assert Lowered(pre + stem + post) == stem == Lowered(stem);
    CaseAndSuffixRows(stem, stem, canon);
    SamePreparedIsSameURL(pre + stem + post, stem + ".git", canon);
  }

  /** The lower-case pieces the test locations are built from. */
  lemma TestPiecesHaveNoCapitals()
    ensures NoUpper("git@") && NoUpper("https://") && NoUpper("https://github.com/") && NoUpper("")
    ensures NoUpper(".com:argoproj/test") && NoUpper(".com:test") && NoUpper(".com/argoproj/test")
  {
  }

  lemma PaddingIsSpace(p: string)
    requires p == " " || p == "\t" || p == "\n"
    ensures forall k :: 0 <= k < |p| ==> IsSpace(p[k])
  {
  }

  /** Lower-casing a GitHub location written with an upper-case host. */
  lemma GitHubHostCase(up: string, stem: string, pre: string, post: string)
    requires NoUpper(pre) && NoUpper(post)
    requires up == pre + "GITHUB" + post && stem == pre + "github" + post
    ensures ToLower(up) == stem
  {
    ToLowerOfMiddle(pre, "GITHUB", post);
    assert ToLower("GITHUB") == "github";
  }

  /**
   * The rows of TestSameURL for `git@GITHUB.com:argoproj/test`: with and
   * without `.git`, and with the `ssh://` scheme.
   */
  lemma ArgoprojShorthandRows(up: string, stem: string, canon: UrlCanonicalizer)
    requires up == "git@" + "GITHUB" + ".com:argoproj/test" && stem == "git@" + "github" + ".com:argoproj/test"
    ensures SameURL(up, stem + ".git", canon)
    ensures SameURL(up + ".git", stem + ".git", canon)
    ensures SameURL("ssh://" + up, stem + ".git", canon)
    ensures SameURL("ssh://" + up + ".git", stem + ".git", canon)
  {
    assert stem[..4] == "git@";
    TestPiecesHaveNoCapitals();
    GitHubHostCase(up, stem, "git@", ".com:argoproj/test");
    assert HasPrefix(stem, "git@");
    CaseAndSuffixRows(up, stem, canon);
    SSHRows(up, stem, canon);
  }

  /** The rows of TestSameURL for `git@GITHUB.com:test` and `ssh://git@github.com:test`. */
  lemma TestShorthandRows(up: string, stem: string, canon: UrlCanonicalizer)
    requires up == "git@" + "GITHUB" + ".com:test" && stem == "git@" + "github" + ".com:test"
    ensures SameURL(up, stem + ".git", canon)
    ensures SameURL(up + ".git", stem + ".git", canon)
    ensures SameURL("ssh://" + up + ".git", stem + ".git", canon)
    ensures SameURL("ssh://" + stem, stem + ".git", canon)
  {
    assert stem[..4] == "git@";
    TestPiecesHaveNoCapitals();
    GitHubHostCase(up, stem, "git@", ".com:test");
    assert HasPrefix(stem, "git@");
    CaseAndSuffixRows(up, stem, canon);
    SSHRows(up, stem, canon);
    ToLowerIdempotent(up);
    SSHRows(stem, stem, canon);
  }

  /** The shape of `https://GITHUB.com/argoproj/test` and of its lower-case form. */
  lemma ArgoprojHTTPSShape(up: string, stem: string)
    requires up == "https://" + "GITHUB" + ".com/argoproj/test" && stem == "https://" + "github" + ".com/argoproj/test"
    ensures Trimmed(up) && ToLower(up) == stem && |up| >= 4 && up[|up| - 4] != '.'
    ensures Trimmed(stem) && |stem| >= 4 && stem[|stem| - 4] != '.'
  {
    TestPiecesHaveNoCapitals();
    GitHubHostCase(up, stem, "https://", ".com/argoproj/test");
  }

  /** The rows of TestSameURL for `https://GITHUB.com/argoproj/test`, with and without `.git`. */
  lemma ArgoprojHTTPSRows(up: string, stem: string, canon: UrlCanonicalizer)
    requires up == "https://" + "GITHUB" + ".com/argoproj/test" && stem == "https://" + "github" + ".com/argoproj/test"
    ensures SameURL(up, stem + ".git", canon)
    ensures SameURL(up + ".git", stem + ".git", canon)
  {
    ArgoprojHTTPSShape(up, stem);
    CaseAndSuffixRows(up, stem, canon);
  }

  /** The rows of TestSameURL for `https://github.com/argoproj/test` padded with white space. */
  lemma PaddedHTTPSRows(up: string, stem: string, canon: UrlCanonicalizer)
    requires up == "https://" + "GITHUB" + ".com/argoproj/test" && stem == "https://" + "github" + ".com/argoproj/test"
    ensures SameURL(" " + stem + " ", stem + ".git", canon)
    ensures SameURL("\t" + stem + "\n", stem + ".git", canon)
  {
    ArgoprojHTTPSShape(up, stem);
    PaddingIsSpace(" ");
    PaddingIsSpace("\t");
    PaddingIsSpace("\n");
    PaddedRow(" ", up, stem, " ", canon);
    PaddedRow("\t", up, stem, "\n", canon);
  }

  /** The shape of `https://github.com/FOO` and of `https://github.com/TEST`. */
  lemma PlainHTTPSShape(foo: string, lowerFoo: string, test: string)
    requires foo == "https://github.com/" + "FOO" && lowerFoo == "https://github.com/" + "foo"
    requires test == "https://github.com/" + "TEST"
    ensures Trimmed(foo) && ToLower(foo) == lowerFoo && Trimmed(lowerFoo)
    ensures Trimmed(test) && |test| >= 4 && test[|test| - 4] != '.'
  {
    TestPiecesHaveNoCapitals();
    assert foo == "https://github.com/" + "FOO" + "" && lowerFoo == "https://github.com/" + "foo" + "";
    ToLowerOfMiddle("https://github.com/", "FOO", "");
    assert ToLower("FOO") == "foo";
  }

  /** The rows of TestSameURL whose two sides differ only in case or in `.git`. */
  lemma PlainHTTPSRows(foo: string, lowerFoo: string, test: string, canon: UrlCanonicalizer)
    requires foo == "https://github.com/" + "FOO" && lowerFoo == "https://github.com/" + "foo"
    requires test == "https://github.com/" + "TEST"
    ensures SameURL(foo, lowerFoo, canon)
    ensures SameURL(test, test + ".git", canon)
    ensures SameURL(test + ".git", test + ".git", canon)
  {
    PlainHTTPSShape(foo, lowerFoo, test);
    CaseVariantRow(foo, lowerFoo, canon);
    NoGitSuffixAfterLower(test);
    GitSuffixIsIgnored(test, canon);
    SameURLIsEquivalence(test + ".git", test, test, canon);
  }

  /** Two trimmed locations with the same lower-case form are the same URL. */
  lemma CaseVariantRow(up: string, stem: string, canon: UrlCanonicalizer)
    requires Trimmed(up) && ToLower(up) == stem && Trimmed(stem)
    ensures SameURL(up, stem, canon)
  {
    ToLowerIdempotent(up);
    assert Lowered(up) == stem == Lowered(stem);
    SamePreparedIsSameURL(up, stem, canon);
  }

  /**
   * Every row of TestSameURL, for every parser. The locations are
   * parameters fixed by the preconditions and spelled as concatenations
   * of their host and path pieces, so that the verifier reasons about
   * them symbolically rather than evaluating `NormalizeURL` on literals.
   */
  lemma SameURLTestVectors(canon: UrlCanonicalizer, upA: string, a: string, upB: string, b: string, upC: string, c: string,
                           foo: string, lowerFoo: string, test: string, vs: string, azure: string)
    requires upA == "git@" + "GITHUB" + ".com:argoproj/test" && a == "git@" + "github" + ".com:argoproj/test"
    requires upB == "git@" + "GITHUB" + ".com:test" && b == "git@" + "github" + ".com:test"
    requires upC == "https://" + "GITHUB" + ".com/argoproj/test" && c == "https://" + "github" + ".com/argoproj/test"
    requires foo == "https://github.com/" + "FOO" && lowerFoo == "https://github.com/" + "foo"
    requires test == "https://github.com/" + "TEST"
    requires vs == "https://1234.visualstudio.com/myproj/_git/myrepo"
    requires azure == "https://dev.azure.com/1234/myproj/_git/myrepo"
    ensures SameURL(upA, a + ".git", canon)
    ensures SameURL(upA + ".git", a + ".git", canon)
    ensures SameURL(upB, b + ".git", canon)
    ensures SameURL(upB + ".git", b + ".git", canon)
    ensures SameURL(upC, c + ".git", canon)
    ensures SameURL(upC + ".git", c + ".git", canon)
    ensures SameURL(foo, lowerFoo, canon)
    ensures SameURL(test, test + ".git", canon)
    ensures SameURL(test + ".git", test + ".git", canon)
    ensures SameURL("ssh://" + upA, a + ".git", canon)
    ensures SameURL("ssh://" + upA + ".git", a + ".git", canon)
    ensures SameURL("ssh://" + upB + ".git", b + ".git", canon)
    ensures SameURL("ssh://" + b, b + ".git", canon)
    ensures SameURL(" " + c + " ", c + ".git", canon)
    ensures SameURL("\t" + c + "\n", c + ".git", canon)
    ensures SameURL(vs, vs, canon)
    ensures SameURL(azure, azure, canon)
  {
    ArgoprojShorthandRows(upA, a, canon);
    TestShorthandRows(upB, b, canon);
    ArgoprojHTTPSRows(upC, c, canon);
    PaddedHTTPSRows(upC, c, canon);
    PlainHTTPSRows(foo, lowerFoo, test, canon);
    SameURLIsEquivalence(vs, vs, vs, canon);
    SameURLIsEquivalence(azure, azure, azure, canon);
  }

  /** Configuration of a source repository (`repos.Config`). */
  datatype Config = Config(
    url: string,
    name: string,
    repoType: string,
    username: string,
    password: string,
    sshPrivateKey: string,
    insecureIgnoreHostKey: bool,
    caData: seq<bv8>,
    certData: seq<bv8>,
    keyData: seq<bv8>)

  /** The backend a client talks to, with the settings it is built from. */
  datatype Client =
    | HelmClient(url: string, name: string, workDir: string, username: string, password: string,
                 caData: seq<bv8>, certData: seq<bv8>, keyData: seq<bv8>)
    | GitClient(url: string, workDir: string, username: string, password: string,
                sshPrivateKey: string, insecureIgnoreHostKey: bool)

  /** `factory.NewClient`: the helm backend for type "helm", the git backend for every other type. */
  function NewClient(c: Config, workDir: string): (client: Client)
    ensures client.HelmClient? <==> c.repoType == "helm"
    ensures client.url == c.url && client.workDir == workDir
    ensures client.username == c.username && client.password == c.password
    ensures client.HelmClient? ==>
      client.name == c.name && client.caData == c.caData && client.certData == c.certData && client.keyData == c.keyData
    ensures client.GitClient? ==>
      client.sshPrivateKey == c.sshPrivateKey && client.insecureIgnoreHostKey == c.insecureIgnoreHostKey
  {
    if c.repoType == "helm" then
      HelmClient(c.url, c.name, workDir, c.username, c.password, c.caData, c.certData, c.keyData)
    else
      GitClient(c.url, workDir, c.username, c.password, c.sshPrivateKey, c.insecureIgnoreHostKey)
  }
}
