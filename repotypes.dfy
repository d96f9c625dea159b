/**
 * The values the repository service exchanges with its callers and its
 * collaborators (backing store, connection-state cache, policy enforcer,
 * repository server): registered repositories, connection states, gRPC
 * status errors and the requests sent to the repository server.
 */
module RepositoryTypes {
  import opened Wrappers

  /** The gRPC status codes the service produces; `Unknown` is what a plain Go error becomes. */
  datatype Code = Unknown | InvalidArgument | NotFound | AlreadyExists | PermissionDenied | Internal

  datatype Error = Error(code: Code, message: string)

  /** Timestamps are opaque instants supplied by the caller. */
  type Time = int

  datatype ConnectionStatus = StatusUnset | Successful | Failed

  datatype ConnectionState = ConnectionState(status: ConnectionStatus, message: string, modifiedAt: Option<Time>)

  /** The zero value of a connection state. */
  const EmptyConnectionState := ConnectionState(StatusUnset, "", None)

  /** A registered source repository, as the backing store keeps it. */
  datatype Repository = Repository(
    repo: string,
    username: string,
    password: string,
    sshPrivateKey: string,
    connectionState: ConnectionState,
    insecureIgnoreHostKey: bool,
    name: string,
    repoType: string)

  /** A repository record that only carries a location. */
  function RepositoryAt(url: string): (r: Repository)
    ensures r.repo == url && r.connectionState == EmptyConnectionState
    ensures r.username == "" && r.password == "" && r.sshPrivateKey == ""
    ensures r.name == "" && r.repoType == "" && !r.insecureIgnoreHostKey
  {
    Repository(url, "", "", "", EmptyConnectionState, false, "", "")
  }

  /** The actions of the repositories resource that the policy is asked about. */
  datatype Action = ActionGet | ActionCreate | ActionUpdate | ActionDelete

  /** What a policy decision is about: a location, or a whole stored record when listing. */
  datatype PolicyObject = ByURL(url: string) | ByRecord(record: Repository)

  /** The caller's identity claims, passed through to the policy unchanged. */
  type Claims = string

  const PermissionDeniedError := Error(PermissionDenied, "permission denied")

  /** The arguments of a reachability probe of a repository. */
  datatype ProbeRequest = ProbeRequest(repo: string, repoType: string, username: string, password: string, sshPrivateKey: string)

  function ProbeOf(r: Repository): (p: ProbeRequest)
    ensures p.repo == r.repo && p.repoType == r.repoType
    ensures p.username == r.username && p.password == r.password && p.sshPrivateKey == r.sshPrivateKey
  {
    ProbeRequest(r.repo, r.repoType, r.username, r.password, r.sshPrivateKey)
  }

  /** A glob listing asked of the repository server. */
  datatype ListDirRequest = ListDirRequest(repo: Repository, revision: string, path: string)

  /** A file read asked of the repository server. */
  datatype GetFileRequest = GetFileRequest(repo: Repository, revision: string, path: string)

  datatype AppSourceType = Ksonnet | Helm | Kustomize | Directory

  /** One application found in a repository: its directory and its type. */
  datatype AppInfo = AppInfo(path: string, appType: AppSourceType)

  datatype KsonnetAppSpec = KsonnetAppSpec(name: string, path: string)

  datatype HelmAppSpec = HelmAppSpec(name: string, path: string, valueFiles: seq<string>)

  datatype KustomizeAppSpec = KustomizeAppSpec(path: string)

  /** The details of one application, tagged by its type. */
  datatype AppDetails =
    | DirectoryDetails
    | KsonnetDetails(ksonnet: KsonnetAppSpec)
    | HelmDetails(helm: HelmAppSpec)
    | KustomizeDetails(kustomize: KustomizeAppSpec)

  datatype RepoAppsQuery = RepoAppsQuery(repo: string, revision: string)

  datatype RepoAppDetailsQuery = RepoAppDetailsQuery(repo: string, revision: string, path: string)

  datatype RepoCreateRequest = RepoCreateRequest(repo: Repository, upsert: bool)

  /** The revision a listing is made at: `HEAD` when none is given. */
  function DefaultRevision(revision: string): (r: string)
    ensures revision == "" ==> r == "HEAD"
    ensures revision != "" ==> r == revision
  {
    if revision == "" then "HEAD" else revision
  }
}
