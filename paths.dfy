/**
 * The slash-separated path helpers of Go's `path` and `path/filepath`
 * packages that the repository service calls: `Join`, `Dir` and `Rel`.
 * Paths are taken to be already clean: no `.` or `..` to fold and no
 * doubled or trailing slash. Go runs `path.Clean` over the result of
 * `Join` and over both arguments of `Rel`; that step is not modelled, so
 * a path from a request (an application path, a sub-path) is assumed to
 * be clean as well.
 */
module Paths {
  import opened Wrappers

  /** `path.Join(dir, name)` for a clean directory and a clean name. */
  function Join(dir: string, name: string): (p: string)
    ensures dir == "" || dir == "." ==> p == name
    ensures dir != "" && dir != "." ==> |p| >= |dir| && p[..|dir|] == dir
  {
    if dir == "" || dir == "." then name
    else if dir == "/" then dir + name
    else dir + "/" + name
  }

  /** Index of the last slash of `p`, or -1 when there is none. */
  function LastSlash(p: string): (i: int)
    ensures -1 <= i < |p|
    ensures 0 <= i ==> p[i] == '/'
    ensures forall j :: i < j < |p| ==> p[j] != '/'
  {
    if p == [] then -1
    else if p[|p| - 1] == '/' then |p| - 1
    else LastSlash(p[..|p| - 1])
  }

  /** `filepath.Dir(p)`: everything before the last slash, `.` when there is no slash. */
  function Dir(p: string): (d: string)
    ensures '/' !in p ==> d == "."
  {
    var i := LastSlash(p);
    if i < 0 then "."
    else if i == 0 then "/"
    else p[..i]
  }

  /** The directory of a joined path is the directory it was joined to. */
  lemma DirOfJoin(dir: string, name: string)
    requires '/' !in name
    ensures Dir(Join(dir, name)) == if dir == "" then "." else dir
  {
    var p := Join(dir, name);
    if dir == "" || dir == "." {
    } else if dir == "/" {
      assert p == "/" + name;
      assert p[0] == '/';
      assert forall j :: 0 < j < |p| ==> p[j] == name[j - 1];
    } else {
      assert p == dir + "/" + name;
      assert p[|dir|] == '/';
      assert forall j :: |dir| < j < |p| ==> p[j] == name[j - |dir| - 1];
    }
  }

  /** `strings.Split(p, "/")`. */
  function Split(p: string): (parts: seq<string>)
    ensures |parts| >= 1
    ensures forall k :: 0 <= k < |parts| ==> '/' !in parts[k]
  {
    if p == [] then [""]
    else if p[0] == '/' then [""] + Split(p[1..])
    else
      var rest := Split(p[1..]);
      [[p[0]] + rest[0]] + rest[1..]
  }

  /** A path without a slash is a single element. */
  lemma {:induction false} SplitOfElement(p: string)
    requires '/' !in p
    ensures Split(p) == [p]
  {
    if p != [] {
      SplitOfElement(p[1..]);
      assert [p[0]] + p[1..] == p;
    }
  }

  /** `strings.Join(parts, "/")`. */
  function JoinParts(parts: seq<string>): string
    requires |parts| >= 1
  {
    if |parts| == 1 then parts[0] else parts[0] + "/" + JoinParts(parts[1..])
  }

  /** Splitting at a slash splits each side independently. */
  lemma {:induction false} SplitConcat(a: string, b: string)
    ensures Split(a + "/" + b) == Split(a) + Split(b)
  {
    if a == [] {
      assert a + "/" + b == "/" + b;
      assert ("/" + b)[1..] == b;
    } else if a[0] == '/' {
      assert (a + "/" + b)[1..] == a[1..] + "/" + b;
      SplitConcat(a[1..], b);
    } else {
      var joined := a + "/" + b;
      assert joined[0] == a[0] && joined[1..] == a[1..] + "/" + b;
      SplitConcat(a[1..], b);
      var rest := Split(a[1..] + "/" + b);
      var restA := Split(a[1..]);
      assert Split(joined) == [[a[0]] + rest[0]] + rest[1..];
      assert Split(a) == [[a[0]] + restA[0]] + restA[1..];
      assert rest[0] == restA[0];
      assert rest[1..] == restA[1..] + Split(b);
    }
  }

  /** Joining the parts of a split gives back the path. */
  lemma {:induction false} JoinSplit(p: string)
    ensures JoinParts(Split(p)) == p
  {
    if p == [] {
    } else if p[0] == '/' {
      JoinSplit(p[1..]);
      assert Split(p)[1..] == Split(p[1..]);
    } else {
      JoinSplit(p[1..]);
      var rest := Split(p[1..]);
      var parts := Split(p);
      if |rest| == 1 {
        assert parts == [[p[0]] + rest[0]];
      } else {
        assert parts[1..] == rest[1..];
        assert JoinParts(parts) == [p[0]] + rest[0] + "/" + JoinParts(rest[1..]);
        assert JoinParts(rest) == rest[0] + "/" + JoinParts(rest[1..]);
      }
    }
  }

  /** Length of the longest common prefix of two sequences of path elements. */
  function CommonPrefixLen(a: seq<string>, b: seq<string>): (n: nat)
    ensures n <= |a| && n <= |b|
    ensures a[..n] == b[..n]
    ensures n < |a| && n < |b| ==> a[n] != b[n]
  {
    if a == [] || b == [] || a[0] != b[0] then 0
    else
      var m := CommonPrefixLen(a[1..], b[1..]);
      assert a[..m + 1] == [a[0]] + a[1..][..m];
      assert b[..m + 1] == [b[0]] + b[1..][..m];
      1 + m
  }

  /** The path elements `filepath.Rel` walks: none for the empty path, one empty element for the root. */
  function Elements(p: string): seq<string> {
    if p == "" then [] else if p == "/" then [""] else Split(p)
  }

  function Ups(k: nat): (r: seq<string>)
    ensures |r| == k && forall j :: 0 <= j < k ==> r[j] == ".."
  {
    seq(k, _ => "..")
  }

  /**
   * `filepath.Rel(basepath, targpath)` on clean paths: the path that leads
   * from `basepath` to `targpath`, or an error when one is absolute and the
   * other is not, or when it would have to climb out of a `..` element.
   */
  function Rel(basepath: string, targpath: string): (r: Result<string, string>)
  {
    var base := if basepath == "" then "." else basepath;
    var targ := if targpath == "" then "." else targpath;
    var err := "Rel: can't make " + targpath + " relative to " + basepath;
    if targ == base then Success(".")
    else
      var b := if base == "." then "" else base;
      var baseSlashed := |b| > 0 && b[0] == '/';
      var targSlashed := |targ| > 0 && targ[0] == '/';
      if baseSlashed != targSlashed then Failure(err)
      else
        var bs := Elements(b);
        var ts := Elements(targ);
        var n := CommonPrefixLen(bs, ts);
        if n < |bs| && bs[n] == ".." then Failure(err)
        else
          var parts := Ups(|bs| - n) + ts[n..];
          if parts == [] then Success("") else Success(JoinParts(parts))
  }

  /** A file inside the base directory is reached by its own name. */
  lemma RelOfChild(base: string, name: string)
    requires base != "" && base != "." && base != "/"
    requires name != ""
    ensures Rel(base, base + "/" + name) == Success(name)
  {
    var targ := base + "/" + name;
    assert |targ| > |base|;
    assert targ[0] == base[0];
    assert targ != "" && targ != "/";
    SplitConcat(base, name);
    var bs := Split(base);
    var ts := Split(targ);
    assert ts[..|bs|] == bs;
    var n := CommonPrefixLen(bs, ts);
    assert n == |bs|;
    assert Ups(0) + ts[n..] == Split(name);
    JoinSplit(name);
  }

  /** Every absolute/relative mismatch is refused. */
  lemma RelRefusesMixedPaths(basepath: string, targpath: string)
    requires basepath != "" && targpath != ""
    requires (basepath[0] == '/') != (targpath[0] == '/')
    ensures Rel(basepath, targpath).Failure?
  {
  }

  /** A base reached by climbing out of `..` is refused rather than guessed at. */
  lemma RelRefusesClimbingOutOfParent(targpath: string)
    requires targpath != "" && targpath != ".." && targpath[0] != '/'
    requires Split(targpath)[0] != ".."
    ensures Rel("..", targpath).Failure?
  {
    var ts := Elements(targpath);
    SplitOfElement("..");
    assert Elements("..") == [".."];
    assert CommonPrefixLen([".."], ts) == 0;
  }
}
