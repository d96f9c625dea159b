/**
 * The repository service: registers, lists, updates and deletes source
 * repositories and reports the applications they hold. The backing store
 * is the sequence `repositories`, keyed by normalized location; the
 * policy, the reachability probe, the repository server and the YAML
 * parser are oracles fixed when the service is built.
 */
module RepositoryServer {
  import opened Wrappers
  import opened Strings
  import opened Repos
  import opened Paths
  import opened RepositoryTypes
  import opened ConnectionCache
  import opened AppDetection

  /** No two stored repositories share a normalized location. */
  predicate Distinct(repos: seq<Repository>, key: string -> string) {
    forall i, j :: 0 <= i < j < |repos| ==> key(repos[i].repo) != key(repos[j].repo)
  }

  /** No two records carry the same location string, the key of the connection-state cache. */
  predicate DistinctLocations(items: seq<Repository>) {
    forall i, j :: 0 <= i < j < |items| ==> items[i].repo != items[j].repo
  }

  /** The position of the stored repository at the same normalized location as `url`, if any. */
  function FindIndex(repos: seq<Repository>, url: string, key: string -> string): (r: Option<nat>)
    ensures r.None? ==> forall k :: 0 <= k < |repos| ==> key(repos[k].repo) != key(url)
    ensures r.Some? ==> r.value < |repos| && key(repos[r.value].repo) == key(url)
    ensures r.Some? ==> forall k :: 0 <= k < r.value ==> key(repos[k].repo) != key(url)
  {
    if repos == [] then None
    else if key(repos[0].repo) == key(url) then Some(0)
    else match FindIndex(repos[1..], url, key)
      case None => None
      case Some(i) => Some(i + 1)
  }

  /** With distinct locations, the stored repository at `url` is the only one there. */
  lemma FindIndexIsUnique(repos: seq<Repository>, url: string, key: string -> string, k: nat)
    requires Distinct(repos, key)
    requires k < |repos| && key(repos[k].repo) == key(url)
    ensures FindIndex(repos, url, key) == Some(k)
  {
  }

  /** What `List` reveals of a stored repository: its name, location and type, and no credentials. */
  function ListEntry(r: Repository): (e: Repository)
    ensures e.name == r.name && e.repo == r.repo && e.repoType == r.repoType
    ensures e.username == "" && e.password == "" && e.sshPrivateKey == ""
    ensures e.connectionState == EmptyConnectionState && !e.insecureIgnoreHostKey
  {
    RepositoryAt(r.repo).(name := r.name, repoType := r.repoType)
  }

  /** What `Create` answers about a registered repository: its location and type only. */
  function Summary(r: Repository): (s: Repository)
    ensures s.repo == r.repo && s.repoType == r.repoType
    ensures s.username == "" && s.password == "" && s.sshPrivateKey == "" && s.name == ""
  {
    RepositoryAt(r.repo).(repoType := r.repoType)
  }

  /** The record `Create` stores: the request, marked as reachable. */
  function Registered(r: Repository): Repository {
    r.(connectionState := ConnectionState(Successful, "", None))
  }

  /** The masked comparison of `Create`: the records agree once the connection state is copied over. */
  predicate SameExceptConnectionState(existing: Repository, requested: Repository) {
    existing.(connectionState := requested.connectionState) == requested
  }

  /** The masked comparison is field-by-field equality of everything but the connection state. */
  lemma SameExceptConnectionStateIsFieldwise(a: Repository, b: Repository)
    ensures SameExceptConnectionState(a, b) <==>
      a.repo == b.repo && a.username == b.username && a.password == b.password &&
      a.sshPrivateKey == b.sshPrivateKey && a.insecureIgnoreHostKey == b.insecureIgnoreHostKey &&
      a.name == b.name && a.repoType == b.repoType
    ensures SameExceptConnectionState(a, b) <==> SameExceptConnectionState(b, a)
  {
  }

  datatype Reconciliation = AlreadyRegistered | DelegateToUpdate | Conflict

  /** What `Create` does when the location is already registered. */
  function Reconcile(existing: Repository, requested: Repository, upsert: bool): (d: Reconciliation)
    ensures d == AlreadyRegistered <==> SameExceptConnectionState(existing, requested)
    ensures d == DelegateToUpdate <==> !SameExceptConnectionState(existing, requested) && upsert
    ensures d == Conflict <==> !SameExceptConnectionState(existing, requested) && !upsert
  {
    if SameExceptConnectionState(existing, requested) then AlreadyRegistered
    else if upsert then DelegateToUpdate
    else Conflict
  }

  /** The store reports an unknown location; its message is not modelled beyond the location. */
  function StoreNotFound(url: string): Error {
    Error(NotFound, url)
  }

  const ConflictError := Error(InvalidArgument, "existing repository spec is different; use upsert flag to force update")

  const UnsupportedTypeError := Error(InvalidArgument, "specified application path is not supported")

  datatype RepoResponse = RepoResponse

  class Server {
    var repositories: seq<Repository>
    const cache: ConnectionStateCache
    /** How the store parses locations. */
    const canon: UrlCanonicalizer
    /** The store's key of a location: its normalized URL. */
    const key: string -> string
    /** The policy: may these claims perform this action on this object? */
    const enforce: (Claims, Action, PolicyObject) -> bool
    /** The reachability probe: `None` when the repository answers, else the error text. */
    const testRepo: ProbeRequest -> Option<string>
    /** The outcome of connecting to the repository server. */
    const repoClientError: Option<Error>
    const listDir: Lister
    const getFile: GetFileRequest -> Result<seq<bv8>, Error>
    /** YAML parsing of an application spec over the pre-filled record. */
    const unmarshalKsonnet: (seq<bv8>, KsonnetAppSpec) -> Result<KsonnetAppSpec, Error>
    const unmarshalHelm: (seq<bv8>, HelmAppSpec) -> Result<HelmAppSpec, Error>

    ghost predicate Valid()
      reads this
    {
      (forall url :: key(url) == NormalizeURL(url, canon)) && Distinct(repositories, key)
    }

    /** Two locations share a store entry exactly when `SameURL` holds of them. */
    lemma StoreIsKeyedBySameURL(a: string, b: string)
      requires Valid()
      ensures key(a) == key(b) <==> SameURL(a, b, canon)
    {
    }

    constructor(repositories: seq<Repository>, cache: ConnectionStateCache, canon: UrlCanonicalizer,
                enforce: (Claims, Action, PolicyObject) -> bool, testRepo: ProbeRequest -> Option<string>,
                repoClientError: Option<Error>, listDir: Lister, getFile: GetFileRequest -> Result<seq<bv8>, Error>,
                unmarshalKsonnet: (seq<bv8>, KsonnetAppSpec) -> Result<KsonnetAppSpec, Error>,
                unmarshalHelm: (seq<bv8>, HelmAppSpec) -> Result<HelmAppSpec, Error>)
      requires Distinct(repositories, url => NormalizeURL(url, canon))
      ensures Valid()
      ensures this.repositories == repositories && this.cache == cache && this.canon == canon
      ensures this.enforce == enforce && this.testRepo == testRepo && this.repoClientError == repoClientError
      ensures this.listDir == listDir && this.getFile == getFile
      ensures this.unmarshalKsonnet == unmarshalKsonnet && this.unmarshalHelm == unmarshalHelm
    {
      this.repositories := repositories;
      this.cache := cache;
      this.canon := canon;
      this.key := url => NormalizeURL(url, canon);
      this.enforce := enforce;
      this.testRepo := testRepo;
      this.repoClientError := repoClientError;
      this.listDir := listDir;
      this.getFile := getFile;
      this.unmarshalKsonnet := unmarshalKsonnet;
      this.unmarshalHelm := unmarshalHelm;
    }

    // ----- Connection state -----

    /** The connection state `HydrateConnectionState` gives a repository. */
    function HydratedState(entries: map<string, ConnectionState>, repo: Repository, now: Time): ConnectionState {
      if repo.repo in entries then entries[repo.repo]
      else match testRepo(ProbeOf(repo))
        case Some(err) => ConnectionState(Failed, "Unable to connect to repository: " + err, Some(now))
        case None => ConnectionState(Successful, "", Some(now))
    }

    /**
     * The cache after `HydrateConnectionState`: a successful probe writes,
     * for the location, the state the failed lookup returned (the zero state).
     */
    function CacheAfterHydration(entries: map<string, ConnectionState>, repo: Repository): map<string, ConnectionState> {
      if repo.repo in entries || testRepo(ProbeOf(repo)).Some? then entries
      else AfterSet(entries, cache.accepts(repo.repo), repo.repo, Some(EmptyConnectionState))
    }

    /** The three outcomes of hydration: cache hit, probe failure, probe success. */
    lemma HydrationOutcomes(entries: map<string, ConnectionState>, repo: Repository, now: Time)
      ensures repo.repo in entries ==>
        HydratedState(entries, repo, now) == entries[repo.repo] && CacheAfterHydration(entries, repo) == entries
      ensures repo.repo !in entries && testRepo(ProbeOf(repo)).Some? ==>
        HydratedState(entries, repo, now).status == Failed &&
        HydratedState(entries, repo, now).modifiedAt == Some(now) &&
        HasPrefix(HydratedState(entries, repo, now).message, "Unable to connect to repository: ") &&
        CacheAfterHydration(entries, repo) == entries
      ensures repo.repo !in entries && testRepo(ProbeOf(repo)).None? ==>
        HydratedState(entries, repo, now) == ConnectionState(Successful, "", Some(now)) &&
        CacheAfterHydration(entries, repo) == AfterSet(entries, cache.accepts(repo.repo), repo.repo, Some(EmptyConnectionState))
    {
      if repo.repo !in entries {
        if testRepo(ProbeOf(repo)).Some? {
          var msg := "Unable to connect to repository: " + testRepo(ProbeOf(repo)).value;
          assert msg[..|"Unable to connect to repository: "|] == "Unable to connect to repository: ";
        }
      }
    }

    /**
     * Once a successful probe has been cached, the next hydration of the
     * same location is a cache hit that reports the zero state, not
     * `Successful`, and probes nothing.
     */
    lemma SecondHydrationSeesZeroState(entries: map<string, ConnectionState>, repo: Repository, now: Time, later: Time)
      requires repo.repo !in entries && testRepo(ProbeOf(repo)).None? && cache.accepts(repo.repo)
      ensures HydratedState(entries, repo, now).status == Successful
      ensures HydratedState(CacheAfterHydration(entries, repo), repo, later) == EmptyConnectionState
      ensures CacheAfterHydration(CacheAfterHydration(entries, repo), repo) == CacheAfterHydration(entries, repo)
    {
    }

    /** `HydrateConnectionState`: the record comes back with its connection state filled in. */
    method HydrateConnectionState(repo: Repository, now: Time) returns (hydrated: Repository)
      modifies cache
      ensures hydrated == repo.(connectionState := HydratedState(old(cache.entries), repo, now))
      ensures cache.entries == CacheAfterHydration(old(cache.entries), repo)
    {
      var connectionState, found := cache.GetRepoConnectionState(repo.repo);
      if found {
        return repo.(connectionState := connectionState);
      }
      var err := testRepo(ProbeOf(repo));
      if err.Some? {
        return repo.(connectionState := ConnectionState(Failed, "Unable to connect to repository: " + err.value, Some(now)));
      }
      var ok := cache.SetRepoConnectionState(repo.repo, Some(connectionState));
      hydrated := repo.(connectionState := ConnectionState(Successful, "", Some(now)));
    }

    // ----- List -----

    /** The stored repositories the claims may read, in store order, reduced to their list entries. */
    function Listed(claims: Claims, repos: seq<Repository>): (r: seq<Repository>)
      ensures |r| <= |repos|
      ensures forall x :: x in r <==> exists i :: 0 <= i < |repos| && enforce(claims, ActionGet, ByRecord(repos[i])) && x == ListEntry(repos[i])
    {
      if repos == [] then []
      else
        var prefix := repos[..|repos| - 1];
        var last := repos[|repos| - 1];
        var prev := Listed(claims, prefix);
        assert forall i :: 0 <= i < |prefix| ==> prefix[i] == repos[i];
        if enforce(claims, ActionGet, ByRecord(last)) then prev + [ListEntry(last)] else prev
    }

    /** Listing is a filter: it distributes over concatenation, so store order is kept. */
    lemma {:induction false} ListedConcat(claims: Claims, a: seq<Repository>, b: seq<Repository>)
      ensures Listed(claims, a + b) == Listed(claims, a) + Listed(claims, b)
    {
      if b == [] {
        assert a + b == a;
      } else {
        assert (a + b)[..|a + b| - 1] == a + b[..|b| - 1];
        ListedConcat(claims, a, b[..|b| - 1]);
      }
    }

    /** Listing one repository yields its entry exactly when the claims may read it. */
    lemma ListedSingle(claims: Claims, r: Repository)
      ensures Listed(claims, [r]) == if enforce(claims, ActionGet, ByRecord(r)) then [ListEntry(r)] else []
    {
      assert [r][..0] == [];
    }

    /** Hydrating `items` one after the other: the hydrated records and the final cache. */
    function HydrateAll(entries: map<string, ConnectionState>, items: seq<Repository>, now: Time): (r: (seq<Repository>, map<string, ConnectionState>))
      ensures |r.0| == |items|
      ensures forall i :: 0 <= i < |items| ==> r.0[i] == items[i].(connectionState := r.0[i].connectionState)
    {
      if items == [] then ([], entries)
      else
        var prev := HydrateAll(entries, items[..|items| - 1], now);
        var last := items[|items| - 1];
        (prev.0 + [last.(connectionState := HydratedState(prev.1, last, now))], CacheAfterHydration(prev.1, last))
    }

    /** Listing keeps the locations of a store with distinct keys distinct. */
    lemma {:induction false} ListedKeepsDistinct(claims: Claims, repos: seq<Repository>)
      requires Distinct(repos, key)
      ensures DistinctLocations(Listed(claims, repos))
    {
      if repos != [] {
        var prefix := repos[..|repos| - 1];
        var last := repos[|repos| - 1];
        assert forall i :: 0 <= i < |prefix| ==> prefix[i] == repos[i];
        ListedKeepsDistinct(claims, prefix);
        var prev := Listed(claims, prefix);
        if enforce(claims, ActionGet, ByRecord(last)) {
          forall x | x in prev
            ensures x.repo != last.repo
          {
            var j :| 0 <= j < |prefix| && enforce(claims, ActionGet, ByRecord(prefix[j])) && x == ListEntry(prefix[j]);
            assert key(repos[j].repo) != key(last.repo);
          }
          var listed := prev + [ListEntry(last)];
          forall i, j | 0 <= i < j < |listed|
            ensures listed[i].repo != listed[j].repo
          {
            if j == |listed| - 1 {
              assert listed[i] in prev;
            } else {
              assert listed[i] == prev[i] && listed[j] == prev[j];
            }
          }
        }
      }
    }

    /** Hydrating records at other locations leaves the cache entry of `k` as it was. */
    lemma {:induction false} HydrateAllFrame(entries: map<string, ConnectionState>, items: seq<Repository>, now: Time, k: string)
      requires forall i :: 0 <= i < |items| ==> items[i].repo != k
      ensures k in HydrateAll(entries, items, now).1 <==> k in entries
      ensures k in entries ==> HydrateAll(entries, items, now).1[k] == entries[k]
    {
      if items != [] {
        HydrateAllFrame(entries, items[..|items| - 1], now, k);
      }
    }

    /**
     * With distinct locations, hydrating the slots one after the other gives
     * every slot the state that hydrating it alone against the original cache
     * gives: the order of the concurrent workers does not matter.
     */
    lemma {:induction false} HydrateAllIndependent(entries: map<string, ConnectionState>, items: seq<Repository>, now: Time)
      requires DistinctLocations(items)
      ensures forall i :: 0 <= i < |items| ==>
        HydrateAll(entries, items, now).0[i] == items[i].(connectionState := HydratedState(entries, items[i], now))
    {
      if items != [] {
        var prefix := items[..|items| - 1];
        var last := items[|items| - 1];
        assert forall i :: 0 <= i < |prefix| ==> prefix[i] == items[i];
        HydrateAllIndependent(entries, prefix, now);
        HydrateAllFrame(entries, prefix, now, last.repo);
      }
    }

    /** `List` never reveals credentials, whatever the cache and the probes say. */
    lemma ListShowsNoCredentials(entries: map<string, ConnectionState>, claims: Claims, repos: seq<Repository>, now: Time)
      ensures forall x :: x in HydrateAll(entries, Listed(claims, repos), now).0 ==>
        x.username == "" && x.password == "" && x.sshPrivateKey == ""
    {
      var items := Listed(claims, repos);
      var hydrated := HydrateAll(entries, items, now).0;
      forall x | x in hydrated
        ensures x.username == "" && x.password == "" && x.sshPrivateKey == ""
      {
        var k :| 0 <= k < |hydrated| && hydrated[k] == x;
        assert items[k] in items;
      }
    }

    /** `List`: filter by policy in store order, then hydrate every slot. */
    method List(claims: Claims, now: Time) returns (r: seq<Repository>)
      requires Valid()
      modifies cache
      ensures r == HydrateAll(old(cache.entries), Listed(claims, repositories), now).0
      ensures cache.entries == HydrateAll(old(cache.entries), Listed(claims, repositories), now).1
      ensures |r| == |Listed(claims, repositories)|
      ensures forall i :: 0 <= i < |r| ==>
        r[i] == Listed(claims, repositories)[i].(connectionState := HydratedState(old(cache.entries), Listed(claims, repositories)[i], now))
    {
      var items := ListedEntries(claims);
      ListedKeepsDistinct(claims, repositories);
      HydrateAllIndependent(cache.entries, items, now);
      r := HydrateSlots(items, now);
    }

    /** The filter loop of `List`: the entries of the stored repositories the claims may read. */
    method ListedEntries(claims: Claims) returns (items: seq<Repository>)
      ensures items == Listed(claims, repositories)
    {
      items := [];
      for i := 0 to |repositories|
        invariant items == Listed(claims, repositories[..i])
      {
        assert repositories[..i + 1][..i] == repositories[..i];
        var repo := repositories[i];
        if enforce(claims, ActionGet, ByRecord(repo)) {
          items := items + [ListEntry(repo)];
        }
      }
      assert repositories[..|repositories|] == repositories;
    }

    /** The hydration of `List`: every slot of the result is hydrated in turn. */
    method HydrateSlots(items: seq<Repository>, now: Time) returns (r: seq<Repository>)
      modifies cache
      ensures r == HydrateAll(old(cache.entries), items, now).0
      ensures cache.entries == HydrateAll(old(cache.entries), items, now).1
    {
      ghost var entries := cache.entries;
      var slots := new Repository[|items|](k requires 0 <= k < |items| => items[k]);
      for i := 0 to slots.Length
        invariant slots[..i] == HydrateAll(entries, items[..i], now).0
        invariant slots[i..] == items[i..]
        invariant cache.entries == HydrateAll(entries, items[..i], now).1
      {
        assert items[..i + 1][..i] == items[..i];
        ghost var prev := HydrateAll(entries, items[..i], now);
        assert slots[i] == items[i];
        var hydrated := HydrateConnectionState(slots[i], now);
        slots[i] := hydrated;
        assert HydrateAll(entries, items[..i + 1], now) == (prev.0 + [hydrated], cache.entries);
        assert slots[..i + 1] == slots[..i] + [hydrated];
      }
      assert items[..|items|] == items;
      r := slots[..];
    }

    // ----- Lookups shared by ListApps and GetAppDetails -----

    /** The stored repository at `url`, or a record carrying only the location when none is stored. */
    function RepositoryFor(url: string): (r: Repository)
      reads this
      ensures FindIndex(repositories, url, key).None? ==> r == RepositoryAt(url)
      ensures FindIndex(repositories, url, key).Some? ==> r in repositories && key(r.repo) == key(url)
    {
      match FindIndex(repositories, url, key)
      case None => RepositoryAt(url)
      case Some(i) => repositories[i]
    }

    /** `ListApps`: the applications of a repository, with their directories and types. */
    method ListApps(claims: Claims, q: RepoAppsQuery) returns (r: Result<seq<AppInfo>, Error>, ghost order: seq<string>)
      ensures !enforce(claims, ActionGet, ByURL(q.repo)) ==> r == Failure(PermissionDeniedError)
      ensures enforce(claims, ActionGet, ByURL(q.repo)) && repoClientError.Some? ==> r == Failure(repoClientError.value)
      ensures enforce(claims, ActionGet, ByURL(q.repo)) && repoClientError.None? ==>
        var paths := AppPaths(listDir, RepositoryFor(q.repo), DefaultRevision(q.revision), "", KustomizationNames);
        (paths.Failure? ==> r == Failure(paths.error)) &&
        (paths.Success? ==>
          r.Success? && |r.value| == |order| == |paths.value| &&
          (forall p :: p in paths.value <==> p in order) &&
          (forall i :: 0 <= i < |r.value| ==> order[i] in paths.value && r.value[i] == AppInfo(Dir(order[i]), paths.value[order[i]])))
    {
      order := [];
      if !enforce(claims, ActionGet, ByURL(q.repo)) {
        return Failure(PermissionDeniedError), order;
      }
      var repo := RepositoryFor(q.repo);
      if repoClientError.Some? {
        return Failure(repoClientError.value), order;
      }
      var revision := q.revision;
      if revision == "" {
        revision := "HEAD";
      }
      var paths := ListAppsPaths(listDir, repo, revision, "", KustomizationNames);
      if paths.Failure? {
        return Failure(paths.error), order;
      }
      var items;
      items, order := AppInfos(paths.value);
      return Success(items), order;
    }

    // ----- GetAppDetails -----

    /** The details of the application at `appPath`, once its type is known. */
    function Details(repo: Repository, revision: string, path: string, appPath: string, appType: AppSourceType): (r: Result<AppDetails, Error>) {
      var data :- getFile(GetFileRequest(repo, revision, appPath));
      match appType
      case Ksonnet =>
        var spec :- unmarshalKsonnet(data, KsonnetAppSpec("", path));
        Success(KsonnetDetails(spec))
      case Helm =>
        var spec :- unmarshalHelm(data, HelmAppSpec("", path, []));
        var listing :- listDir(ListDirRequest(repo, revision, Join(path, "*values*.yaml")));
        var files :- RelativeAll(path, listing);
        Success(HelmDetails(spec.(valueFiles := files)))
      case Kustomize => Success(KustomizeDetails(KustomizeAppSpec(path)))
      case Directory => Failure(UnsupportedTypeError)
    }

    /**
     * Helm details list one value file per listed `*values*.yaml`, each
     * relative to the application path; Kustomize details carry the path;
     * a Directory type is refused after the spec file was read.
     */
    lemma DetailsByType(repo: Repository, revision: string, path: string, appPath: string, appType: AppSourceType)
      ensures Details(repo, revision, path, appPath, appType).Success? && appType == Helm ==>
        var listing := listDir(ListDirRequest(repo, revision, Join(path, "*values*.yaml")));
        var files := Details(repo, revision, path, appPath, appType).value.helm.valueFiles;
        listing.Success? && |files| == |listing.value| &&
        forall i :: 0 <= i < |files| ==> Rel(path, listing.value[i]) == Success(files[i])
      ensures appType == Kustomize && getFile(GetFileRequest(repo, revision, appPath)).Success? ==>
        Details(repo, revision, path, appPath, appType) == Success(KustomizeDetails(KustomizeAppSpec(path)))
      ensures getFile(GetFileRequest(repo, revision, appPath)).Failure? ==>
        Details(repo, revision, path, appPath, appType) == Failure(getFile(GetFileRequest(repo, revision, appPath)).error)
      ensures appType == Directory ==> Details(repo, revision, path, appPath, appType).Failure?
    {
      if Details(repo, revision, path, appPath, appType).Success? && appType == Helm {
        var data := getFile(GetFileRequest(repo, revision, appPath)).value;
        var listing := listDir(ListDirRequest(repo, revision, Join(path, "*values*.yaml")));
        assert listing.Success?;
        assert RelativeAll(path, listing.value).Success?;
      }
    }

    /** The type switch of `GetAppDetails`, with the value-file slots filled by index. */
    method DetailsFor(repo: Repository, revision: string, path: string, appPath: string, appType: AppSourceType)
      returns (r: Result<AppDetails, Error>)
      ensures r == Details(repo, revision, path, appPath, appType)
    {
      var appSpecRes := getFile(GetFileRequest(repo, revision, appPath));
      if appSpecRes.Failure? {
        return Failure(appSpecRes.error);
      }
      match appType {
        case Ksonnet =>
          var appSpec := unmarshalKsonnet(appSpecRes.value, KsonnetAppSpec("", path));
          if appSpec.Failure? {
            return Failure(appSpec.error);
          }
          return Success(KsonnetDetails(appSpec.value));
        case Helm =>
          var appSpec := unmarshalHelm(appSpecRes.value, HelmAppSpec("", path, []));
          if appSpec.Failure? {
            return Failure(appSpec.error);
          }
          var valuesFilesRes := listDir(ListDirRequest(repo, revision, Join(path, "*values*.yaml")));
          if valuesFilesRes.Failure? {
            return Failure(valuesFilesRes.error);
          }
          var valueFiles := ValueFilePaths(path, valuesFilesRes.value);
          if valueFiles.Failure? {
            return Failure(valueFiles.error);
          }
          return Success(HelmDetails(appSpec.value.(valueFiles := valueFiles.value)));
        case Kustomize =>
          return Success(KustomizeDetails(KustomizeAppSpec(path)));
        case Directory =>
          return Failure(UnsupportedTypeError);
      }
    }

    /** `GetAppDetails`: the details of one application found under `q.path`, chosen in map order. */
    method GetAppDetails(claims: Claims, q: RepoAppDetailsQuery) returns (r: Result<AppDetails, Error>, ghost appPath: string)
      ensures !enforce(claims, ActionGet, ByURL(q.repo)) ==> r == Failure(PermissionDeniedError)
      ensures enforce(claims, ActionGet, ByURL(q.repo)) && repoClientError.Some? ==> r == Failure(repoClientError.value)
      ensures enforce(claims, ActionGet, ByURL(q.repo)) && repoClientError.None? ==>
        var repo := RepositoryFor(q.repo);
        var revision := DefaultRevision(q.revision);
        var paths := AppPaths(listDir, repo, revision, q.path, KustomizationNames);
        (paths.Failure? ==> r == Failure(paths.error)) &&
        (paths.Success? && paths.value == map[] ==> r == Success(DirectoryDetails)) &&
        (paths.Success? && paths.value != map[] ==>
          appPath in paths.value && r == Details(repo, revision, q.path, appPath, paths.value[appPath]))
    {
      appPath := "";
      if !enforce(claims, ActionGet, ByURL(q.repo)) {
        return Failure(PermissionDeniedError), appPath;
      }
      var repo := RepositoryFor(q.repo);
      if repoClientError.Some? {
        return Failure(repoClientError.value), appPath;
      }
      var revision := q.revision;
      if revision == "" {
        revision := "HEAD";
      }
      var paths := ListAppsPaths(listDir, repo, revision, q.path, KustomizationNames);
      if paths.Failure? {
        return Failure(paths.error), appPath;
      }
      if |paths.value| == 0 {
        return Success(DirectoryDetails), appPath;
      }
      var chosen :| chosen in paths.value;
      appPath := chosen;
      r := DetailsFor(repo, revision, q.path, chosen, paths.value[chosen]);
    }

    // ----- Create, Update, Delete -----

    /**
     * `Update`: the answer and the store after it. The stored record is
     * overwritten by the request except for its type, which an update
     * does not change.
     */
    function UpdateOutcome(repos: seq<Repository>, claims: Claims, r: Repository): (Result<Repository, Error>, seq<Repository>) {
      if !enforce(claims, ActionUpdate, ByURL(r.repo)) then (Failure(PermissionDeniedError), repos)
      else match FindIndex(repos, r.repo, key)
        case None => (Failure(StoreNotFound(r.repo)), repos)
        case Some(i) => (Success(RepositoryAt(r.repo)), repos[i := r.(repoType := repos[i].repoType)])
    }

    /** `Create`: the answer and the store after it. */
    function CreateOutcome(repos: seq<Repository>, claims: Claims, q: RepoCreateRequest): (Result<Repository, Error>, seq<Repository>) {
      if !enforce(claims, ActionCreate, ByURL(q.repo.repo)) then (Failure(PermissionDeniedError), repos)
      else if testRepo(ProbeOf(q.repo)).Some? then (Failure(Error(Unknown, testRepo(ProbeOf(q.repo)).value)), repos)
      else
        var registered := Registered(q.repo);
        match FindIndex(repos, registered.repo, key)
        case None => (Success(Summary(registered)), repos + [registered])
        case Some(i) =>
          match Reconcile(repos[i], registered, q.upsert)
          case AlreadyRegistered => (Success(Summary(repos[i])), repos)
          case DelegateToUpdate => UpdateOutcome(repos, claims, registered)
          case Conflict => (Failure(ConflictError), repos)
    }

    /** `Delete`: the answer, the store and the cache after it, given whether the invalidation was taken. */
    function DeleteOutcome(repos: seq<Repository>, entries: map<string, ConnectionState>, claims: Claims, url: string, invalidated: bool)
      : (Result<RepoResponse, Error>, seq<Repository>, map<string, ConnectionState>)
    {
      if !enforce(claims, ActionDelete, ByURL(url)) then (Failure(PermissionDeniedError), repos, entries)
      else
        var after := AfterSet(entries, invalidated, url, None);
        match FindIndex(repos, url, key)
        case None => (Failure(StoreNotFound(url)), repos, after)
        case Some(i) => (Success(RepoResponse), repos[..i] + repos[i + 1..], after)
    }

    /** A call the policy refuses changes neither the store nor the cache. */
    lemma RefusedCallsChangeNothing(repos: seq<Repository>, entries: map<string, ConnectionState>, claims: Claims,
                                    q: RepoCreateRequest, u: Repository, url: string, invalidated: bool)
      ensures !enforce(claims, ActionCreate, ByURL(q.repo.repo)) ==> CreateOutcome(repos, claims, q) == (Failure(PermissionDeniedError), repos)
      ensures !enforce(claims, ActionUpdate, ByURL(u.repo)) ==> UpdateOutcome(repos, claims, u) == (Failure(PermissionDeniedError), repos)
      ensures !enforce(claims, ActionDelete, ByURL(url)) ==> DeleteOutcome(repos, entries, claims, url, invalidated) == (Failure(PermissionDeniedError), repos, entries)
    {
    }

    /** A repository that cannot be reached is not registered. */
    lemma UnreachableIsNotRegistered(repos: seq<Repository>, claims: Claims, q: RepoCreateRequest)
      requires enforce(claims, ActionCreate, ByURL(q.repo.repo)) && testRepo(ProbeOf(q.repo)).Some?
      ensures CreateOutcome(repos, claims, q).0.Failure? && CreateOutcome(repos, claims, q).1 == repos
      ensures CreateOutcome(repos, claims, q).0.error.code == Unknown
    {
    }

    /** Registering a spec that differs from the stored one, without upsert, is an InvalidArgument error. */
    lemma ConflictWithoutUpsert(repos: seq<Repository>, claims: Claims, q: RepoCreateRequest, i: nat)
      requires Distinct(repos, key)
      requires enforce(claims, ActionCreate, ByURL(q.repo.repo)) && testRepo(ProbeOf(q.repo)).None?
      requires i < |repos| && key(repos[i].repo) == key(q.repo.repo)
      requires !SameExceptConnectionState(repos[i], Registered(q.repo)) && !q.upsert
      ensures CreateOutcome(repos, claims, q) == (Failure(ConflictError), repos)
      ensures ConflictError.code == InvalidArgument
    {
      FindIndexIsUnique(repos, q.repo.repo, key, i);
    }

    /** With upsert, a differing spec replaces the stored one, as `Update` would. */
    lemma UpsertDelegatesToUpdate(repos: seq<Repository>, claims: Claims, q: RepoCreateRequest, i: nat)
      requires Distinct(repos, key)
      requires enforce(claims, ActionCreate, ByURL(q.repo.repo)) && testRepo(ProbeOf(q.repo)).None?
      requires i < |repos| && key(repos[i].repo) == key(q.repo.repo)
      requires !SameExceptConnectionState(repos[i], Registered(q.repo)) && q.upsert
      ensures CreateOutcome(repos, claims, q) == UpdateOutcome(repos, claims, Registered(q.repo))
      ensures enforce(claims, ActionUpdate, ByURL(q.repo.repo)) ==>
        CreateOutcome(repos, claims, q).1 == repos[i := Registered(q.repo).(repoType := repos[i].repoType)]
    {
      FindIndexIsUnique(repos, q.repo.repo, key, i);
    }

    /** Creating the same spec again after a successful `Create` succeeds and changes nothing. */
    lemma CreateIsIdempotent(repos: seq<Repository>, claims: Claims, q: RepoCreateRequest)
      requires CreateOutcome(repos, claims, q).0.Success?
      ensures CreateOutcome(CreateOutcome(repos, claims, q).1, claims, q).0.Success?
      ensures CreateOutcome(CreateOutcome(repos, claims, q).1, claims, q).1 == CreateOutcome(repos, claims, q).1
    {
      var registered := Registered(q.repo);
      var after := CreateOutcome(repos, claims, q).1;
      assert key(registered.repo) == key(registered.repo);
      match FindIndex(repos, registered.repo, key)
      case None =>
        assert after == repos + [registered];
        FindIndexAfterAppend(repos, registered, key);
      case Some(i) =>
        FindIndexAfterReplace(repos, i, registered.(repoType := repos[i].repoType), key);
    }

    /**
     * A permitted `Update` at a stored location writes the request over the
     * record there, keeping the stored type, and changes no other record.
     */
    lemma UpdateKeepsStoredType(repos: seq<Repository>, claims: Claims, u: Repository, i: nat)
      requires Distinct(repos, key)
      requires enforce(claims, ActionUpdate, ByURL(u.repo))
      requires i < |repos| && key(repos[i].repo) == key(u.repo)
      ensures UpdateOutcome(repos, claims, u).0 == Success(RepositoryAt(u.repo))
      ensures |UpdateOutcome(repos, claims, u).1| == |repos|
      ensures UpdateOutcome(repos, claims, u).1[i] == u.(repoType := repos[i].repoType)
      ensures forall k :: 0 <= k < |repos| && k != i ==> UpdateOutcome(repos, claims, u).1[k] == repos[k]
    {
      FindIndexIsUnique(repos, u.repo, key, i);
    }

    /** `Create`, `Update` and `Delete` keep stored locations distinct. */
    lemma CreateKeepsDistinct(repos: seq<Repository>, claims: Claims, q: RepoCreateRequest)
      requires Distinct(repos, key)
      ensures Distinct(CreateOutcome(repos, claims, q).1, key)
    {
      var registered := Registered(q.repo);
      if FindIndex(repos, registered.repo, key).None? {
        AppendKeepsDistinct(repos, registered, key);
      }
      UpdateKeepsDistinct(repos, claims, registered);
    }

    lemma DeleteKeepsDistinct(repos: seq<Repository>, entries: map<string, ConnectionState>, claims: Claims, url: string, invalidated: bool)
      requires Distinct(repos, key)
      ensures Distinct(DeleteOutcome(repos, entries, claims, url, invalidated).1, key)
    {
      var i := FindIndex(repos, url, key);
      if i.Some? {
        RemoveKeepsDistinct(repos, i.value, key);
      }
    }

    lemma UpdateKeepsDistinct(repos: seq<Repository>, claims: Claims, u: Repository)
      requires Distinct(repos, key)
      ensures Distinct(UpdateOutcome(repos, claims, u).1, key)
    {
      var i := FindIndex(repos, u.repo, key);
      if i.Some? && enforce(claims, ActionUpdate, ByURL(u.repo)) {
        var after := repos[i.value := u.(repoType := repos[i.value].repoType)];
        forall a, b | 0 <= a < b < |after|
          ensures key(after[a].repo) != key(after[b].repo)
        {
          assert key(repos[a].repo) != key(repos[b].repo);
        }
      }
    }

    /**
     * The invalidation outcome never changes `Delete`'s answer or the
     * store, and a successful `Delete` leaves nothing at the location that
     * a later `List` could show.
     */
    lemma DeleteRemovesLocation(repos: seq<Repository>, entries: map<string, ConnectionState>, claims: Claims,
                                url: string, invalidated: bool, listClaims: Claims)
      requires Distinct(repos, key)
      requires DeleteOutcome(repos, entries, claims, url, invalidated).0.Success?
      ensures DeleteOutcome(repos, entries, claims, url, !invalidated).0 == DeleteOutcome(repos, entries, claims, url, invalidated).0
      ensures DeleteOutcome(repos, entries, claims, url, !invalidated).1 == DeleteOutcome(repos, entries, claims, url, invalidated).1
      ensures invalidated ==> url !in DeleteOutcome(repos, entries, claims, url, invalidated).2
      ensures forall k :: 0 <= k < |DeleteOutcome(repos, entries, claims, url, invalidated).1| ==>
        key(DeleteOutcome(repos, entries, claims, url, invalidated).1[k].repo) != key(url)
      ensures forall x :: x in Listed(listClaims, DeleteOutcome(repos, entries, claims, url, invalidated).1) ==>
        key(x.repo) != key(url)
    {
      var i := FindIndex(repos, url, key).value;
      var after := repos[..i] + repos[i + 1..];
      forall k | 0 <= k < |after|
        ensures key(after[k].repo) != key(url)
      {
        if k < i {
          assert after[k] == repos[k];
        } else {
          assert after[k] == repos[k + 1];
          assert key(repos[i].repo) != key(repos[k + 1].repo);
        }
      }
    }

    /** `Update`: write the record over the stored one at the same location, keeping the stored type. */
    method Update(claims: Claims, r: Repository) returns (res: Result<Repository, Error>)
      requires Valid()
      modifies this
      ensures (res, repositories) == UpdateOutcome(old(repositories), claims, r)
      ensures Valid()
    {
      UpdateKeepsDistinct(repositories, claims, r);
      if !enforce(claims, ActionUpdate, ByURL(r.repo)) {
        return Failure(PermissionDeniedError);
      }
      var i := FindIndex(repositories, r.repo, key);
      if i.None? {
        return Failure(StoreNotFound(r.repo));
      }
      repositories := repositories[i.value := r.(repoType := repositories[i.value].repoType)];
      return Success(RepositoryAt(r.repo));
    }

    /** `Create`: probe, then register, reconciling with an existing registration. */
    method Create(claims: Claims, q: RepoCreateRequest) returns (res: Result<Repository, Error>)
      requires Valid()
      modifies this
      ensures (res, repositories) == CreateOutcome(old(repositories), claims, q)
      ensures Valid()
    {
      CreateKeepsDistinct(repositories, claims, q);
      if !enforce(claims, ActionCreate, ByURL(q.repo.repo)) {
        return Failure(PermissionDeniedError);
      }
      var err := testRepo(ProbeOf(q.repo));
      if err.Some? {
        return Failure(Error(Unknown, err.value));
      }
      var r := q.repo.(connectionState := ConnectionState(Successful, "", None));
      var i := FindIndex(repositories, r.repo, key);
      if i.None? {
        repositories := repositories + [r];
        return Success(Summary(r));
      }
      var existing := repositories[i.value];
      if existing.(connectionState := r.connectionState) == r {
        return Success(Summary(existing));
      } else if q.upsert {
        res := Update(claims, r);
        return;
      }
      return Failure(ConflictError);
    }

    /** `Delete`: invalidate the cached state, ignoring the outcome, then delete from the store. */
    method Delete(claims: Claims, url: string) returns (res: Result<RepoResponse, Error>)
      requires Valid()
      modifies this, cache
      ensures (res, repositories, cache.entries) == DeleteOutcome(old(repositories), old(cache.entries), claims, url, cache.accepts(url))
      ensures Valid()
    {
      DeleteKeepsDistinct(repositories, cache.entries, claims, url, cache.accepts(url));
      if !enforce(claims, ActionDelete, ByURL(url)) {
        return Failure(PermissionDeniedError);
      }
      // Go's `Delete` logs an error exactly when the invalidation succeeded; either way the call goes on.
      var invalidated := cache.SetRepoConnectionState(url, None);
      var i := FindIndex(repositories, url, key);
      if i.None? {
        return Failure(StoreNotFound(url));
      }
      repositories := repositories[..i.value] + repositories[i.value + 1..];
      return Success(RepoResponse);
    }
  }

  lemma {:induction false} FindIndexAfterAppend(repos: seq<Repository>, r: Repository, key: string -> string)
    requires FindIndex(repos, r.repo, key).None?
    ensures FindIndex(repos + [r], r.repo, key) == Some(|repos|)
  {
    if repos == [] {
      assert key(r.repo) == key(r.repo);
      assert repos + [r] == [r];
    } else {
      assert (repos + [r])[1..] == repos[1..] + [r];
      FindIndexAfterAppend(repos[1..], r, key);
    }
  }

  lemma {:induction false} FindIndexAfterReplace(repos: seq<Repository>, i: nat, r: Repository, key: string -> string)
    requires FindIndex(repos, r.repo, key) == Some(i)
    ensures FindIndex(repos[i := r], r.repo, key) == Some(i)
  {
    if i == 0 {
      assert key(r.repo) == key(r.repo);
    } else {
      assert repos[i := r][1..] == repos[1..][i - 1 := r];
      FindIndexAfterReplace(repos[1..], i - 1, r, key);
    }
  }

  lemma AppendKeepsDistinct(repos: seq<Repository>, r: Repository, key: string -> string)
    requires Distinct(repos, key) && FindIndex(repos, r.repo, key).None?
    ensures Distinct(repos + [r], key)
  {
    var after := repos + [r];
    forall a, b | 0 <= a < b < |after|
      ensures key(after[a].repo) != key(after[b].repo)
    {
      assert after[a] == repos[a];
    }
  }

  lemma RemoveKeepsDistinct(repos: seq<Repository>, i: nat, key: string -> string)
    requires Distinct(repos, key) && i < |repos|
    ensures Distinct(repos[..i] + repos[i + 1..], key)
  {
    var after := repos[..i] + repos[i + 1..];
    forall a, b | 0 <= a < b < |after|
      ensures key(after[a].repo) != key(after[b].repo)
    {
      var a' := if a < i then a else a + 1;
      var b' := if b < i then b else b + 1;
      assert after[a] == repos[a'] && after[b] == repos[b'];
    }
  }
}
