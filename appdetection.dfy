/**
 * How the repository service decides which applications a repository
 * holds: it lists four kinds of marker files through the repository
 * server and types each match as Ksonnet, Helm or Kustomize.
 */
module AppDetection {
  import opened Wrappers
  import opened Paths
  import opened RepositoryTypes

  /** A glob listing through the repository server, which may fail. */
  type Lister = ListDirRequest -> Result<seq<string>, Error>

  /** The file names a Kustomize application may use, in the order they are tried. */
  const KustomizationNames: seq<string> := ["kustomization.yaml", "kustomization.yml", "Kustomization"]

  /** The application directories confirmed by a `components/params.libsonnet` two levels below them. */
  function ComponentDirs(components: seq<string>): set<string> {
    set c | c in components :: Dir(Dir(c))
  }

  /** The `app.yaml` matches whose directory is confirmed, all typed Ksonnet. */
  function KsonnetMap(apps: seq<string>, dirs: set<string>): (m: map<string, AppSourceType>)
    ensures forall p :: p in m <==> p in apps && Dir(p) in dirs
    ensures forall p :: p in m ==> m[p] == Ksonnet
  {
    if apps == [] then map[]
    else
      var last := apps[|apps| - 1];
      var m := KsonnetMap(apps[..|apps| - 1], dirs);
      assert forall p :: p in apps <==> p in apps[..|apps| - 1] || p == last;
      if Dir(last) in dirs then m[last := Ksonnet] else m
  }

  /** `m` after every key of `keys` has been set to `t`, in order. */
  function Assign(m: map<string, AppSourceType>, keys: seq<string>, t: AppSourceType): (r: map<string, AppSourceType>)
    ensures forall p :: p in r <==> p in m || p in keys
    ensures forall p :: p in keys ==> r[p] == t
    ensures forall p :: p in r && p !in keys ==> r[p] == m[p]
  {
    if keys == [] then m
    else
      var last := keys[|keys| - 1];
      assert forall p :: p in keys <==> p in keys[..|keys| - 1] || p == last;
      Assign(m, keys[..|keys| - 1], t)[last := t]
  }

  /**
   * The application type of every match: Kustomize matches win over Helm
   * matches, which win over confirmed Ksonnet matches.
   */
  function ClassifyPaths(apps: seq<string>, components: seq<string>, charts: seq<string>, kust: seq<string>): (m: map<string, AppSourceType>)
    ensures forall p :: p in m <==> p in kust || p in charts || (p in apps && Dir(p) in ComponentDirs(components))
    ensures forall p :: p in m ==> (m[p] == Kustomize <==> p in kust)
    ensures forall p :: p in m ==> (m[p] == Helm <==> p in charts && p !in kust)
    ensures forall p :: p in m ==> (m[p] == Ksonnet <==> p !in charts && p !in kust)
    ensures forall p :: p in m ==> m[p] != Directory
  {
    Assign(Assign(KsonnetMap(apps, ComponentDirs(components)), charts, Helm), kust, Kustomize)
  }

  /** The loops of `listAppsPaths` that build the type of every match. */
  method BuildPathToType(apps: seq<string>, components: seq<string>, charts: seq<string>, kust: seq<string>)
    returns (pathToType: map<string, AppSourceType>)
    ensures pathToType == ClassifyPaths(apps, components, charts, kust)
  {
    var componentDirs: set<string> := {};
    for i := 0 to |components|
      invariant componentDirs == ComponentDirs(components[..i])
    {
      assert components[..i + 1] == components[..i] + [components[i]];
      componentDirs := componentDirs + {Dir(Dir(components[i]))};
    }
    assert components[..|components|] == components;

    pathToType := map[];
    for i := 0 to |apps|
      invariant pathToType == KsonnetMap(apps[..i], componentDirs)
    {
      assert apps[..i + 1][..i] == apps[..i];
      var d := Dir(apps[i]);
      if d in componentDirs {
        pathToType := pathToType[apps[i] := Ksonnet];
      }
    }
    assert apps[..|apps|] == apps;
    ghost var ksonnet := pathToType;

    for i := 0 to |charts|
      invariant pathToType == Assign(ksonnet, charts[..i], Helm)
    {
      assert charts[..i + 1][..i] == charts[..i];
      pathToType := pathToType[charts[i] := Helm];
    }
    assert charts[..|charts|] == charts;
    ghost var helm := pathToType;

    for i := 0 to |kust|
      invariant pathToType == Assign(helm, kust[..i], Kustomize)
    {
      assert kust[..i + 1][..i] == kust[..i];
      pathToType := pathToType[kust[i] := Kustomize];
    }
    assert kust[..|kust|] == kust;
  }

  /** A file and a file one directory further down name the same application directory. */
  lemma SiblingDirs(dir: string, file: string, sub: string, nested: string)
    requires '/' !in file && '/' !in sub && '/' !in nested && sub != ""
    ensures Dir(Dir(Join(Join(dir, sub), nested))) == Dir(Join(dir, file))
  {
    DirOfJoin(dir, file);
    DirOfJoin(dir, sub);
    DirOfJoin(Join(dir, sub), nested);
  }

  /**
   * An `app.yaml` match is typed Ksonnet when its directory also holds
   * `components/params.libsonnet` and no other marker names the same file
   * (stated for any such file names without a slash).
   */
  lemma KsonnetAppConfirmed(dir: string, appFile: string, componentsDir: string, paramsFile: string,
                            apps: seq<string>, components: seq<string>, charts: seq<string>, kust: seq<string>)
    requires '/' !in appFile && '/' !in componentsDir && '/' !in paramsFile && componentsDir != ""
    requires Join(dir, appFile) in apps
    requires Join(Join(dir, componentsDir), paramsFile) in components
    requires Join(dir, appFile) !in charts && Join(dir, appFile) !in kust
    ensures Join(dir, appFile) in ClassifyPaths(apps, components, charts, kust)
    ensures ClassifyPaths(apps, components, charts, kust)[Join(dir, appFile)] == Ksonnet
  {
    var app := Join(dir, appFile);
    var params := Join(Join(dir, componentsDir), paramsFile);
    SiblingDirs(dir, appFile, componentsDir, paramsFile);
    assert Dir(Dir(params)) == Dir(app);
    ConfirmedAppIsKsonnet(app, params, apps, components, charts, kust);
  }

  lemma ConfirmedAppIsKsonnet(app: string, params: string, apps: seq<string>, components: seq<string>, charts: seq<string>, kust: seq<string>)
    requires app in apps && params in components && Dir(Dir(params)) == Dir(app)
    requires app !in charts && app !in kust
    ensures app in ClassifyPaths(apps, components, charts, kust)
    ensures ClassifyPaths(apps, components, charts, kust)[app] == Ksonnet
  {
    assert Dir(app) in ComponentDirs(components);
  }

  /** The kustomization listing: only the first name is ever asked for. */
  function KustomizationListing(listDir: Lister, repo: Repository, revision: string, subPath: string, names: seq<string>): (r: Result<seq<string>, Error>)
  {
    if names == [] then Failure(Error(Unknown, "could not find kustomization"))
    else listDir(ListDirRequest(repo, revision, Join(subPath, "*" + names[0])))
  }

  /** The listing does not depend on any name after the first. */
  lemma OnlyFirstKustomizationNameIsTried(listDir: Lister, repo: Repository, revision: string, subPath: string, names: seq<string>)
    requires names != []
    ensures KustomizationListing(listDir, repo, revision, subPath, names) == KustomizationListing(listDir, repo, revision, subPath, names[..1])
    ensures KustomizationListing(listDir, repo, revision, subPath, names).Failure? ==>
      KustomizationListing(listDir, repo, revision, subPath, names) == listDir(ListDirRequest(repo, revision, Join(subPath, "*" + names[0])))
  {
  }

  /** `getKustomizationRes`: the loop over the names returns in its first round. */
  method GetKustomizationRes(listDir: Lister, repo: Repository, revision: string, subPath: string, names: seq<string>)
    returns (res: Result<seq<string>, Error>)
    ensures names == [] ==> res == Failure(Error(Unknown, "could not find kustomization"))
    ensures names != [] ==> res == listDir(ListDirRequest(repo, revision, Join(subPath, "*" + names[0])))
    ensures res == KustomizationListing(listDir, repo, revision, subPath, names)
  {
    for i := 0 to |names|
      invariant i == 0
    {
      var request := ListDirRequest(repo, revision, Join(subPath, "*" + names[i]));
      var kustomizationRes := listDir(request);
      if kustomizationRes.Failure? {
        return Failure(kustomizationRes.error);
      }
      return Success(kustomizationRes.value);
    }
    return Failure(Error(Unknown, "could not find kustomization"));
  }

  /** What `listAppsPaths` computes: the four listings, in order, then their classification. */
  function AppPaths(listDir: Lister, repo: Repository, revision: string, subPath: string, names: seq<string>): (r: Result<map<string, AppSourceType>, Error>)
  {
    var rev := DefaultRevision(revision);
    var apps :- listDir(ListDirRequest(repo, rev, Join(subPath, "*app.yaml")));
    var components :- listDir(ListDirRequest(repo, rev, Join(subPath, "*components/params.libsonnet")));
    var charts :- listDir(ListDirRequest(repo, rev, Join(subPath, "*Chart.yaml")));
    var kust :- KustomizationListing(listDir, repo, rev, subPath, names);
    Success(ClassifyPaths(apps, components, charts, kust))
  }

  /** Every typed path is one of the listed marker files. */
  lemma AppPathsAreListed(listDir: Lister, repo: Repository, revision: string, subPath: string, names: seq<string>, p: string)
    requires AppPaths(listDir, repo, revision, subPath, names).Success?
    requires p in AppPaths(listDir, repo, revision, subPath, names).value
    ensures exists glob :: listDir(ListDirRequest(repo, DefaultRevision(revision), glob)).Success? &&
                           p in listDir(ListDirRequest(repo, DefaultRevision(revision), glob)).value
  {
    var rev := DefaultRevision(revision);
    var apps := listDir(ListDirRequest(repo, rev, Join(subPath, "*app.yaml"))).value;
    var components := listDir(ListDirRequest(repo, rev, Join(subPath, "*components/params.libsonnet"))).value;
    var charts := listDir(ListDirRequest(repo, rev, Join(subPath, "*Chart.yaml"))).value;
    var kust := KustomizationListing(listDir, repo, rev, subPath, names).value;
    assert AppPaths(listDir, repo, revision, subPath, names).value == ClassifyPaths(apps, components, charts, kust);
    if p in kust {
      assert names != [];
    } else if p in charts {
    } else {
      assert p in apps;
    }
  }

  /** `listAppsPaths`, with the calls made in the order the service makes them. */
  method ListAppsPaths(listDir: Lister, repo: Repository, revision: string, subPath: string, names: seq<string>)
    returns (r: Result<map<string, AppSourceType>, Error>)
    ensures r == AppPaths(listDir, repo, revision, subPath, names)
  {
    var rev := revision;
    if rev == "" {
      rev := "HEAD";
    }
    var ksonnetRes := listDir(ListDirRequest(repo, rev, Join(subPath, "*app.yaml")));
    if ksonnetRes.Failure? {
      return Failure(ksonnetRes.error);
    }
    var componentRes := listDir(ListDirRequest(repo, rev, Join(subPath, "*components/params.libsonnet")));
    if componentRes.Failure? {
      return Failure(componentRes.error);
    }
    var helmRes := listDir(ListDirRequest(repo, rev, Join(subPath, "*Chart.yaml")));
    if helmRes.Failure? {
      return Failure(helmRes.error);
    }
    var kustomizationRes := GetKustomizationRes(listDir, repo, rev, subPath, names);
    if kustomizationRes.Failure? {
      return Failure(kustomizationRes.error);
    }
    var pathToType := BuildPathToType(ksonnetRes.value, componentRes.value, helmRes.value, kustomizationRes.value);
    return Success(pathToType);
  }

  /**
   * The application list of `ListApps`: one entry per typed path, giving
   * its directory and type, in the order the map is iterated (`order`).
   */
  method AppInfos(paths: map<string, AppSourceType>) returns (items: seq<AppInfo>, ghost order: seq<string>)
    ensures |items| == |paths|
    ensures forall p :: p in paths ==> AppInfo(Dir(p), paths[p]) in items
    ensures forall it :: it in items ==> exists p :: p in paths && it == AppInfo(Dir(p), paths[p])
    ensures |order| == |paths|
    ensures forall p :: p in paths <==> p in order
    ensures forall i, j :: 0 <= i < j < |order| ==> order[i] != order[j]
    ensures forall i :: 0 <= i < |items| ==> order[i] in paths && items[i] == AppInfo(Dir(order[i]), paths[order[i]])
  {
    items, order := [], [];
    var rest := paths.Keys;
    while rest != {}
      invariant rest <= paths.Keys
      invariant |items| == |order|
      invariant forall p :: p in paths <==> p in order || p in rest
      invariant forall p :: p in rest ==> p !in order
      invariant forall i, j :: 0 <= i < j < |order| ==> order[i] != order[j]
      invariant forall i :: 0 <= i < |items| ==> order[i] in paths && items[i] == AppInfo(Dir(order[i]), paths[order[i]])
      invariant |order| + |rest| == |paths|
      decreases rest
    {
      var appFilePath :| appFilePath in rest;
      items := items + [AppInfo(Dir(appFilePath), paths[appFilePath])];
      order := order + [appFilePath];
      rest := rest - {appFilePath};
    }
  }

  /**
   * The Helm value files relative to the application path: the first path
   * that cannot be made relative is reported as an error.
   */
  function RelativeAll(base: string, items: seq<string>): (r: Result<seq<string>, Error>)
    ensures r.Success? ==> |r.value| == |items| && forall i :: 0 <= i < |items| ==> Rel(base, items[i]) == Success(r.value[i])
    ensures r.Failure? <==> exists i :: 0 <= i < |items| && Rel(base, items[i]).Failure?
  {
    if items == [] then Success([])
    else
      match Rel(base, items[0])
      case Failure(e) => Failure(Error(Unknown, e))
      case Success(v) =>
        var rest :- RelativeAll(base, items[1..]);
        assert forall i :: 1 <= i < |items| ==> items[i] == items[1..][i - 1];
        Success([v] + rest)
  }

  lemma {:induction false} FirstRelFailureIsReported(base: string, items: seq<string>, i: nat)
    requires i < |items| && Rel(base, items[i]).Failure?
    requires forall j :: 0 <= j < i ==> Rel(base, items[j]).Success?
    ensures RelativeAll(base, items) == Failure(Error(Unknown, Rel(base, items[i]).error))
  {
    if i > 0 {
      FirstRelFailureIsReported(base, items[1..], i - 1);
    }
  }

  lemma {:induction false} AllRelSucceed(base: string, items: seq<string>, files: seq<string>)
    requires |files| == |items|
    requires forall j :: 0 <= j < |items| ==> Rel(base, items[j]) == Success(files[j])
    ensures RelativeAll(base, items) == Success(files)
  {
    if items != [] {
      AllRelSucceed(base, items[1..], files[1..]);
      assert files == [files[0]] + files[1..];
    }
  }

  /** The loop of `GetAppDetails` that fills the value-file slots by index. */
  method ValueFilePaths(base: string, items: seq<string>) returns (r: Result<seq<string>, Error>)
    ensures r == RelativeAll(base, items)
  {
    var files := new string[|items|];
    for i := 0 to |items|
      invariant forall j :: 0 <= j < i ==> Rel(base, items[j]) == Success(files[j])
    {
      var valueFilePath := Rel(base, items[i]);
      if valueFilePath.Failure? {
        FirstRelFailureIsReported(base, items, i);
        return Failure(Error(Unknown, valueFilePath.error));
      }
      files[i] := valueFilePath.value;
    }
    AllRelSucceed(base, items, files[..]);
    return Success(files[..]);
  }

  /** Value files listed inside the application directory are reported by their own names. */
  lemma ValueFilesOfChildren(base: string, names: seq<string>)
    requires base != "" && base != "." && base != "/"
    requires forall k :: 0 <= k < |names| ==> names[k] != ""
    ensures RelativeAll(base, seq(|names|, k requires 0 <= k < |names| => base + "/" + names[k])) == Success(names)
  {
    var items := seq(|names|, k requires 0 <= k < |names| => base + "/" + names[k]);
    forall j | 0 <= j < |items|
      ensures Rel(base, items[j]) == Success(names[j])
    {
      RelOfChild(base, names[j]);
    }
    AllRelSucceed(base, items, names);
  }
}
