/**
 * Revision classification (`IsCommitSHA`, `IsTruncatedCommitSHA` of
 * util/repos/repos.go, which delegate to util/git). A full commit SHA is
 * exactly forty hexadecimal digits of either case; a truncated one is a
 * hexadecimal string of at least seven and fewer than forty digits.
 */
module Revisions {

  const CommitSHALength: nat := 40
  const MinTruncatedLength: nat := 7

  predicate IsHexDigit(c: char) {
    '0' <= c <= '9' || 'a' <= c <= 'f' || 'A' <= c <= 'F'
  }

  predicate IsHex(s: string) {
    forall i :: 0 <= i < |s| ==> IsHexDigit(s[i])
  }

  predicate IsCommitSHA(revision: string) {
    |revision| == CommitSHALength && IsHex(revision)
  }

  predicate IsTruncatedCommitSHA(revision: string) {
    MinTruncatedLength <= |revision| < CommitSHALength && IsHex(revision)
  }

  /** The classification of a hexadecimal string depends on its length alone. */
  lemma HexClassification(s: string)
    requires IsHex(s)
    ensures IsCommitSHA(s) <==> |s| == 40
    ensures IsTruncatedCommitSHA(s) <==> 7 <= |s| < 40
    ensures |s| <= 6 ==> !IsCommitSHA(s) && !IsTruncatedCommitSHA(s)
    ensures !(IsCommitSHA(s) && IsTruncatedCommitSHA(s))
  {
  }

  /** A string with a non-hexadecimal character is neither kind of SHA. */
  lemma NonHexIsSymbolic(s: string, k: nat)
    requires k < |s| && !IsHexDigit(s[k])
    ensures !IsCommitSHA(s) && !IsTruncatedCommitSHA(s)
  {
  }

  /** The full-length hashes of TestIsCommitSHA, in either case, are hashes. */
  lemma FullHashesAreCommitSHAs()
    ensures IsCommitSHA("9d921f65f3c5373b682e2eb4b37afba6592e8f8b")
    ensures IsCommitSHA("9D921F65F3C5373B682E2EB4B37AFBA6592E8F8B")
  {
    var lower := "9d921f65f3c5373b682e2eb4b37afba6592e8f8b";
    assert forall i :: 0 <= i < |lower| ==> IsHexDigit(lower[i]);
    var upper := "9D921F65F3C5373B682E2EB4B37AFBA6592E8F8B";
    assert forall i :: 0 <= i < |upper| ==> IsHexDigit(upper[i]);
  }

  /** The assertions of TestIsCommitSHA. */
  lemma CommitSHATestVectors()
    ensures IsCommitSHA("9d921f65f3c5373b682e2eb4b37afba6592e8f8b")
    ensures IsCommitSHA("9D921F65F3C5373B682E2EB4B37AFBA6592E8F8B")
    ensures !IsCommitSHA("gd921f65f3c5373b682e2eb4b37afba6592e8f8b")
    ensures !IsCommitSHA("master")
    ensures !IsCommitSHA("HEAD")
    ensures !IsCommitSHA("9d921f6")
    ensures IsTruncatedCommitSHA("9d921f6")
    ensures !IsTruncatedCommitSHA("9d921f")
    ensures !IsTruncatedCommitSHA("branch-name")
  {
    FullHashesAreCommitSHAs();
    NonHexIsSymbolic("gd921f65f3c5373b682e2eb4b37afba6592e8f8b", 0);
    NonHexIsSymbolic("branch-name", 6);
  }
}
