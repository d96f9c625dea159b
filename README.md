# Argo CD repository layer, modelled in Dafny

This project models two parts of Argo CD's repository handling.

- **Repository-location helpers** (`util/repos/repos.go`):
  - `ensurePrefix`, `removeSuffix`, `IsSSHURL`, `NormalizeURL` and `SameURL`;
  - the revision predicates `IsCommitSHA` / `IsTruncatedCommitSHA`;
  - the backend dispatch of `factory.NewClient`.

  These are pure functions on strings. `url.Parse` followed by `URL.String()` is a parameter `canon : string -> Option<string>`. The properties are proved for every parser, except `Repos.NormalizeIsNotIdempotent`, which assumes a parser that re-serializes two plain locations unchanged.
- **The repository service** (`server/repository/repository.go`). It is a `Server` class. Its field `repositories` is the backing store: a sequence of `Repository` records in store order, keyed by normalized location.

  The collaborators are `const` oracles fixed when the server is built:
  - the connection-state cache (`ConnectionStateCache`, a class with a mutable `entries` map);
  - the policy `enforce`;
  - the reachability probe `testRepo`;
  - the repository server's `listDir` and `getFile`;
  - the YAML parsers.

  What changes state is written as methods:
  - `HydrateConnectionState`, `List`, `Create`, `Update` and `Delete`;
  - the loops of `listAppsPaths`;
  - the value-file loop of `GetAppDetails`.

  Each method is proved equal to a specification function, and the lemmas are stated about those functions. Three decisions are pure functions: the choice of application type, the per-type branch of `GetAppDetails`, and the reconciliation decision of `Create`.

Files:
- `wrappers.dfy`: `Option` and `Result`.
- `strings.dfy`: the ASCII `strings.ToLower`, `strings.TrimSpace` with Go's white-space set, and the prefix and suffix helpers.
- `revisions.dfy`: the revision predicates.
- `repos.dfy`: the location helpers and `NewClient`.
- `paths.dfy`: `path.Join`, `filepath.Dir` and `filepath.Rel` on clean paths.
- `repotypes.dfy`: the service's records, errors and requests.
- `appdetection.dfy`: `listAppsPaths`, `getKustomizationRes`, the application list and the value files.
- `cache.dfy`: the connection-state cache.
- `server.dfy`: the `Server` class and the store.

Some behaviours of the code are surprising next to its own comments and names. The model follows the code:
- **Unparseable locations.** The comment on `NormalizeURL` (util/repos/repos.go:76-77) says it maps the forms of a URL to one location. Yet two locations the parser rejects both normalize to `""`, so `SameURL` holds of them (`Repos.MalformedURLsCompareEqual`).
- **Normalization is not idempotent.** `removeSuffix` is commented as idempotent (util/repos/repos.go:63), but it removes one suffix per call. So `x.git.git` loses one `.git` per normalization (`Repos.NormalizeIsNotIdempotent`, `Repos.RemoveSuffixRemovesOnce`).
- **Cached state after a successful probe.** `HydrateConnectionState` caches `connectionState`, the zero value the failed lookup returned (server/repository/repository.go:53, 70), not the `Successful` state it answers with. A second hydration therefore reports the zero state (`RepositoryServer.Server.SecondHydrationSeesZeroState`).
- **Failed probes.** Nothing is written to the cache when a probe fails: the function returns before the write (server/repository/repository.go:62-69).
- **Conflicting `Create`.** A differing spec without upsert is reported with code `InvalidArgument` (server/repository/repository.go:337).
- **Kustomization names.** `getKustomizationRes` returns inside the first iteration of its loop, so only the first kustomization name is ever listed (server/repository/repository.go:156-163).
- **Delete's invalidation check.** The comment says "invalidate cache", but the error is logged exactly when the invalidation succeeded (`err == nil`, server/repository/repository.go:360-361). Logging is not modelled, and the outcome never changes the answer (`RepositoryServer.Server.DeleteRemovesLocation`).
- **Update keeps the type.** `Update` carries the comment "TODO - allow update of type?" (server/repository/repository.go:345). The model takes the store to keep the stored type on update (`RepositoryServer.Server.UpdateKeepsStoredType`).
- **Hydration workers.** A worker always returns `nil` (server/repository/repository.go:95-98), so `List` cannot fail once the store has been read.
- **Cache keys.** The cache is keyed by the location string as given (`repo.Repo`), not by its normalized form. The store is keyed by the normalized location.
- **Truncated-SHA predicate.** The test file calls the truncated predicate `IsTruncatedRevision`. It is modelled as `IsTruncatedCommitSHA`.

## Model

| member | source | states |
|---|---|---|
| Repos.EnsurePrefix | util/repos/repos.go:55-61 | the result always starts with the prefix; it is `s` when `s` already does, else `prefix + s` |
| Repos.EnsurePrefixIdempotent | util/repos/repos.go:55-61 | applying `ensurePrefix` twice is the same as once |
| Repos.EnsurePrefixTestVectors | util/repos/repos_test.go:21-36 | every row of TestEnsurePrefix |
| Repos.RemoveSuffix | util/repos/repos.go:63-69 | when `s` ends with the suffix, result + suffix == `s`; otherwise the result is `s` |
| Repos.RemoveSuffixOfAppended | util/repos/repos.go:63-69 | removing a suffix undoes appending it |
| Repos.RemoveSuffixTestVectors | util/repos/repos_test.go:38-48 | every row of TestRemoveSuffix, including `.git` becoming the empty string |
| Repos.RemoveSuffixRemovesOnce | util/repos/repos.go:63-69 | only one suffix is removed: `a.git.git` gives `a.git`, and a second application gives `a` |
| Repos.IsSSHURLTestVectors | util/repos/repos_test.go:50-65 | every row of TestIsSSHURL |
| Repos.SSHPrefixIgnoresSuffix | util/repos/repos.go:94-97 | whether a location is SSH (starts with `git@` or `ssh://`) does not depend on a `.git` appended to it |
| Repos.SameURLIsEquivalence | util/repos/repos.go:71-74 | `SameURL` is reflexive, symmetric and transitive |
| Repos.SamePreparedIsSameURL | util/repos/repos.go:76-92 | for every parser, locations whose pre-parse strings agree are the same URL |
| Repos.MalformedURLsCompareEqual | util/repos/repos.go:86-89 | a location the parser rejects normalizes to `""`, and two such locations compare equal |
| Repos.SSHLocationsAreParsedWithScheme | util/repos/repos.go:81-85 | an SSH location always reaches the parser with an `ssh://` prefix |
| Repos.LoweredIsIdempotent | util/repos/repos.go:81 | trimming and lower-casing twice is the same as once |
| Repos.NormalizeIgnoresCaseAndSpace | util/repos/repos.go:80-92 | `NormalizeURL(x) == NormalizeURL(lower(trim(x)))` for every parser |
| Repos.SSHShorthandCollapses | util/repos/repos.go:81-85 | `git@host:path` and `ssh://git@host:path` reach the parser identical and are the same URL |
| Repos.GitSuffixIsIgnored | util/repos/repos.go:81-85 | a trimmed location without a `.git` suffix and the same location with one reach the parser identical, so they are the same URL |
| Repos.PreparedStripsOneGit | util/repos/repos.go:81-85 | a trimmed, lower-case, non-SSH location loses exactly the one `.git` appended to it |
| Repos.NormalizeIsNotIdempotent | util/repos/repos.go:80-92 | for a parser that re-serializes plain URLs unchanged, `x.git.git` normalizes to `x.git`, and that normalizes to `x` |
| Repos.SameURLTestVectors | util/repos/repos_test.go:67-89 | every row of TestSameURL, for every parser |
| Repos.CaseAndSuffixRows | util/repos/repos.go:80-92 | a trimmed location without a `.git` suffix, with or without `.git` appended, reaches the parser as its lower-case form plus `.git` does, so they are the same URL |
| Repos.SSHRows | util/repos/repos.go:80-92 | the `ssh://` form of a `git@` shorthand, with or without `.git`, is the same URL as the lower-case shorthand plus `.git` |
| Repos.PaddedRow | util/repos/repos.go:80-92 | white space around a trimmed lower-case location does not change its URL: it is the same URL as the location plus `.git` |
| Repos.CaseVariantRow | util/repos/repos.go:80-92 | a trimmed location and its lower-case form are the same URL |
| Repos.NormalizeURL | util/repos/repos.go:80-92 | definition: trim and lower-case; give an SSH location an `ssh://` scheme; drop one `.git`; parse, giving `""` on failure; strip `ssh://` from the re-serialized form |
| Repos.SameURL | util/repos/repos.go:71-74 | definition: the two locations have the same `NormalizeURL` |
| Repos.IsSSHURL | util/repos/repos.go:94-97 | definition: the location starts with `git@` or `ssh://` |
| Repos.NewClient | util/repos/repos.go:43-49 | the helm backend exactly when the type is `"helm"`, the git backend otherwise; each gets its settings from the config |
| Revisions.IsCommitSHA | util/repos/repos.go:99-101 | definition: exactly 40 hexadecimal digits, of either case |
| Revisions.IsTruncatedCommitSHA | util/repos/repos.go:103-105 | definition: 7 to 39 hexadecimal digits, of either case |
| Revisions.HexClassification | util/repos/repos.go:99-105 | a hexadecimal string is a full SHA iff it has 40 digits and a truncated one iff it has 7 to 39; never both |
| Revisions.NonHexIsSymbolic | util/repos/repos.go:99-105 | a string with a non-hex character is neither kind of SHA |
| Revisions.CommitSHATestVectors | util/repos/repos_test.go:9-19 | every assertion of TestIsCommitSHA |
| Revisions.FullHashesAreCommitSHAs | util/repos/repos_test.go:10-11 | the two 40-digit hashes of TestIsCommitSHA, lower and upper case, are commit SHAs |
| Strings.TrimSpace | util/repos/repos.go:81 | the result is a slice of the input with only white space cut off before and after it, and it has no white space at either end; a string without any is unchanged |
| Strings.TrimSpaceOfPadded | util/repos/repos.go:81 | white space added around a non-empty trimmed string is removed exactly |
| Strings.ToLower | util/repos/repos.go:81 | the length is kept; definition: every ASCII capital becomes its lower-case letter and every other character is kept |
| Strings.ToLowerIdempotent | util/repos/repos.go:81 | lower-casing twice is the same as once |
| Strings.ToLowerConcat | util/repos/repos.go:81 | lower-casing distributes over concatenation |
| Strings.TrimPrefix | util/repos/repos.go:91 | with the prefix present, prefix + result is the input; otherwise the input is unchanged |
| Paths.Join | server/repository/repository.go:112-121 | joining to `""` or `.` gives the name; otherwise the result starts with the directory |
| Paths.Dir | server/repository/repository.go:131-143 | a path without a slash has directory `.`; definition: the part before the last slash, `/` for a slash in front |
| Paths.Rel | server/repository/repository.go:288-291 | definition: `.` for equal paths; an error when one path is absolute and the other is not, or when the base climbs out through `..`; otherwise one `..` per unshared base element, then the rest of the target |
| Paths.DirOfJoin | server/repository/repository.go:131-143 | the directory of a name joined to a directory is that directory (`.` for the empty one) |
| Paths.SplitConcat | server/repository/repository.go:288 | splitting `a/b` at slashes gives the elements of `a` followed by those of `b` |
| Paths.JoinSplit | server/repository/repository.go:288 | joining the elements of a split gives the path back |
| Paths.RelOfChild | server/repository/repository.go:286-293 | `filepath.Rel(base, base/name)` is `name` |
| Paths.RelRefusesMixedPaths | server/repository/repository.go:288-291 | an absolute path and a relative one cannot be made relative to each other |
| Paths.RelRefusesClimbingOutOfParent | server/repository/repository.go:288-291 | a relative path whose first element is not `..` cannot be made relative to `..` |
| RepositoryTypes.DefaultRevision | server/repository/repository.go:108-110 | an empty revision becomes `HEAD`; any other is kept |
| RepositoryTypes.RepositoryAt | server/repository/repository.go:172-181 | the placeholder used for an unregistered repository carries only its location: the zero connection state, no name, type or credentials, and no host-key flag |
| AppDetection.ComponentDirs | server/repository/repository.go:131-135 | definition: the set of directories two levels above each `components/params.libsonnet` match |
| AppDetection.KsonnetMap | server/repository/repository.go:137-143 | an `app.yaml` match is kept, typed Ksonnet, iff its directory is a confirmed component directory |
| AppDetection.Assign | server/repository/repository.go:145-151 | after the overwrite loop, every listed key maps to the new type and every other key keeps its old one |
| AppDetection.ClassifyPaths | server/repository/repository.go:131-152 | keys are exactly the kustomization and chart matches and the confirmed `app.yaml` matches; Kustomize iff a kustomization match, Helm iff a chart match that is not one, Ksonnet iff neither; never Directory |
| AppDetection.BuildPathToType | server/repository/repository.go:131-152 | the four loops compute exactly `ClassifyPaths` of the listings |
| AppDetection.ConfirmedAppIsKsonnet | server/repository/repository.go:138-143 | an `app.yaml` match confirmed by a `components/params.libsonnet` two levels below its directory is typed Ksonnet unless a chart or kustomization match names the same file |
| AppDetection.SiblingDirs | server/repository/repository.go:131-143 | a file in a directory and a file two levels further down (`components/params.libsonnet`) name the same application directory |
| AppDetection.KsonnetAppConfirmed | server/repository/repository.go:131-143 | the same for the paths the two globs produce under any directory |
| AppDetection.KustomizationListing | server/repository/repository.go:155-165 | definition: with no names, the error "could not find kustomization"; otherwise the listing for the first name under the sub-path |
| AppDetection.OnlyFirstKustomizationNameIsTried | server/repository/repository.go:156-163 | the listing depends on the first kustomization name only, and an error is the error of listing that name |
| AppDetection.GetKustomizationRes | server/repository/repository.go:155-165 | with no names, the error "could not find kustomization"; otherwise exactly the listing for the first name |
| AppDetection.AppPathsAreListed | server/repository/repository.go:105-153 | every typed path is an item of one of the listings made at the defaulted revision |
| AppDetection.AppPaths | server/repository/repository.go:105-153 | definition: the four listings at the defaulted revision, the first error returned, otherwise `ClassifyPaths` of them |
| AppDetection.ListAppsPaths | server/repository/repository.go:105-153 | the four listings in order, the first error returned, then their classification |
| AppDetection.AppInfos | server/repository/repository.go:199-202 | one entry per typed path, in some enumeration order of the map, giving the path's directory and type |
| AppDetection.RelativeAll | server/repository/repository.go:286-293 | on success, one value file per listed file, each `Rel` of the app path; fails iff some file cannot be made relative |
| AppDetection.FirstRelFailureIsReported | server/repository/repository.go:288-291 | the error returned is the one of the first file that cannot be made relative |
| AppDetection.AllRelSucceed | server/repository/repository.go:286-293 | when every listed file has a relative path, the value files are exactly those paths, in listing order |
| AppDetection.ValueFilePaths | server/repository/repository.go:286-293 | the loop filling the slots by index computes exactly `RelativeAll` |
| AppDetection.ValueFilesOfChildren | server/repository/repository.go:278-293 | value files listed inside the app directory are reported by their own names |
| ConnectionCache.AfterSet | server/repository/repository.go:70 | a write the store refuses changes nothing; an accepted write sets or (with nil) removes that key only |
| ConnectionCache.ConnectionStateCache.GetRepoConnectionState | server/repository/repository.go:53 | a hit gives the cached state; a miss gives the zero state and reports not found |
| ConnectionCache.ConnectionStateCache.SetRepoConnectionState | server/repository/repository.go:70 | the entries become `AfterSet` of the old ones and the answer is whether the store took the write |
| RepositoryServer.FindIndex | server/repository/repository.go:322-327 | the first stored repository with the same store key as the location, or none when no stored key matches |
| RepositoryServer.FindIndexIsUnique | server/repository/repository.go:322-327 | with distinct keys, the lookup finds the one stored repository at that location |
| RepositoryServer.Server.StoreIsKeyedBySameURL | util/repos/repos.go:71-74 | for a valid server, two locations share a store key exactly when `SameURL` holds of them |
| RepositoryServer.ListEntry | server/repository/repository.go:91 | the entry keeps name, location and type and carries no credentials |
| RepositoryServer.Summary | server/repository/repository.go:340 | `Create` answers with the location and type only |
| RepositoryServer.SameExceptConnectionStateIsFieldwise | server/repository/repository.go:330-332 | copying the state over and then comparing is field-by-field equality of everything but the connection state |
| RepositoryServer.Reconcile | server/repository/repository.go:330-338 | already registered iff the records agree but for the state; update iff they differ and upsert is set; conflict iff they differ without upsert |
| RepositoryServer.Server.HydratedState | server/repository/repository.go:52-79 | definition: the cached state on a hit; otherwise Failed with the probe's message at `now`, or Successful at `now` |
| RepositoryServer.Server.CacheAfterHydration | server/repository/repository.go:53-73 | definition: unchanged on a hit or a failed probe; otherwise the cache's answer to writing the zero state at the location |
| RepositoryServer.Server.HydrationOutcomes | server/repository/repository.go:52-79 | cache hit: the cached state, no write; probe failure: Failed, an "Unable to connect to repository: " message, time `now`, no write; probe success: Successful at `now`, plus one cache write for the location |
| RepositoryServer.Server.SecondHydrationSeesZeroState | server/repository/repository.go:53-78 | after a successful probe was cached, hydrating again reports the zero state and writes nothing |
| RepositoryServer.Server.HydrateConnectionState | server/repository/repository.go:52-79 | the record comes back with the state `HydratedState` gives it, and the cache becomes `CacheAfterHydration` |
| RepositoryServer.Server.Listed | server/repository/repository.go:87-94 | an entry is listed iff it is the entry of a stored repository the claims may read |
| RepositoryServer.Server.ListedConcat | server/repository/repository.go:88-94 | listing distributes over concatenation, so store order is kept |
| RepositoryServer.Server.ListedSingle | server/repository/repository.go:90-92 | a single repository is listed iff the policy allows reading it |
| RepositoryServer.Server.HydrateAll | server/repository/repository.go:95-98 | hydration gives one result per slot, each differing from its entry only in its connection state |
| RepositoryServer.Server.HydrateAllFrame | server/repository/repository.go:95-98 | hydrating records at other locations leaves the cache entry of a location as it was, present or absent |
| RepositoryServer.Server.HydrateAllIndependent | server/repository/repository.go:95-98 | with distinct locations, every slot gets the state that hydrating it alone against the original cache gives, so the order of the workers does not matter |
| RepositoryServer.Server.ListedKeepsDistinct | server/repository/repository.go:87-94 | a store with distinct keys lists entries at distinct locations |
| RepositoryServer.Server.ListedEntries | server/repository/repository.go:87-94 | the filter loop computes exactly `Listed` |
| RepositoryServer.Server.ListShowsNoCredentials | server/repository/repository.go:87-98 | no listed repository carries a username, password or private key |
| RepositoryServer.Server.HydrateSlots | server/repository/repository.go:95-98 | filling the slots in turn computes `HydrateAll` and its cache |
| RepositoryServer.Server.List | server/repository/repository.go:82-103 | the result is the hydration of the policy-filtered entries in store order: one slot per entry, each with the state `HydratedState` gives it against the cache before the call |
| RepositoryServer.Server.RepositoryFor | server/repository/repository.go:172-181 | the stored repository at the location, or a placeholder carrying only the location |
| RepositoryServer.Server.ListApps | server/repository/repository.go:167-204 | the permission error before any access; then the repository-client error; then the path-listing error; otherwise one app entry per typed path |
| RepositoryServer.Server.Details | server/repository/repository.go:250-307 | definition: read the app file; Ksonnet and Helm parse it into a spec pre-filled with the app path, Helm adding the value files relative to the app path; Kustomize carries the path; Directory is refused |
| RepositoryServer.Server.DetailsByType | server/repository/repository.go:250-307 | a file-read error comes first; Helm value files are one per listed file and relative to the app path; Kustomize carries the path; Directory is refused |
| RepositoryServer.Server.DetailsFor | server/repository/repository.go:250-307 | the type switch, with its value-file loop, computes exactly `Details` |
| RepositoryServer.Server.GetAppDetails | server/repository/repository.go:206-308 | the permission error before any access; then the client and listing errors; no typed path gives Directory; otherwise the details of some typed path |
| RepositoryServer.Registered | server/repository/repository.go:321 | definition: the request with the connection state Successful |
| RepositoryServer.Server.CreateOutcome | server/repository/repository.go:310-341 | definition: the permission error; the probe error; a new location appended as registered; for a stored location, the stored summary, the outcome of `Update`, or InvalidArgument, as `Reconcile` decides |
| RepositoryServer.Server.UpdateOutcome | server/repository/repository.go:343-351 | definition: the permission error; NotFound when nothing is stored at the location; otherwise the request written over the stored record, keeping its type, answered with the location only |
| RepositoryServer.Server.DeleteOutcome | server/repository/repository.go:353-366 | definition: the permission error; otherwise the cache invalidation as the cache took it, then NotFound or the record removed |
| RepositoryServer.Server.RefusedCallsChangeNothing | server/repository/repository.go:312-314 | a refused Create, Update or Delete (lines 312-314, 346-348, 355-357) answers PermissionDenied and changes neither store nor cache |
| RepositoryServer.Server.UnreachableIsNotRegistered | server/repository/repository.go:316-319 | a failed probe is returned as an error and nothing is stored |
| RepositoryServer.Server.ConflictWithoutUpsert | server/repository/repository.go:336-337 | a differing spec without upsert gives InvalidArgument and leaves the store unchanged |
| RepositoryServer.Server.UpsertDelegatesToUpdate | server/repository/repository.go:334-335 | a differing spec with upsert behaves exactly as `Update` of the registered record; when the update is permitted, the stored record becomes the registered one with the stored type |
| RepositoryServer.Server.UpdateKeepsStoredType | server/repository/repository.go:343-350 | a permitted update at a stored location answers with the location only, writes the request over that record keeping its stored type, and changes no other record |
| RepositoryServer.Server.CreateIsIdempotent | server/repository/repository.go:322-333 | after a successful Create, the same Create succeeds again and changes nothing |
| RepositoryServer.Server.CreateKeepsDistinct | server/repository/repository.go:322 | Create keeps store keys distinct |
| RepositoryServer.Server.UpdateKeepsDistinct | server/repository/repository.go:349 | Update keeps store keys distinct |
| RepositoryServer.Server.DeleteKeepsDistinct | server/repository/repository.go:364 | Delete keeps store keys distinct |
| RepositoryServer.Server.DeleteRemovesLocation | server/repository/repository.go:359-365 | the invalidation outcome changes neither the answer nor the store; an accepted invalidation removes the entry; after a successful Delete, nothing stored or listed is at that location |
| RepositoryServer.Server.Update | server/repository/repository.go:343-351 | answer and store are `UpdateOutcome` of the old store: the permission error first; NotFound when nothing is stored at the location; otherwise the record is written over the stored one, keeping its type; store keys stay distinct |
| RepositoryServer.Server.Create | server/repository/repository.go:310-341 | answer and store are `CreateOutcome` of the old store; store keys stay distinct |
| RepositoryServer.Server.Delete | server/repository/repository.go:353-366 | answer, store and cache are `DeleteOutcome`, with the cache's acceptance of the invalidation; store keys stay distinct |

## Left out

- `TestRepo` in util/repos/repos.go is not modelled. It creates and removes a temporary directory and runs a live probe; the service's probe is the oracle `testRepo`.
- The git and helm client operations are not modelled: checkout, revision resolution, listing remotes, and the helm index. They need the network, and their sources are not part of this model.
- `newDebug` and the errors of the client constructors are not modelled. `Repos.NewClient` returns the chosen backend only.
- `url.Parse` / `URL.String()` is the parameter `canon`. Gaps: its behaviour, the Unicode letter case of `strings.ToLower`, which is ASCII only here, and the internals of util/git's SHA check, which are replaced by the tested behaviour.
- `Paths.Rel`, `Paths.Dir` and `Paths.Join`: model Go's functions on clean paths only. `path.Clean` (folding `.`, `..` and doubled slashes) is not modelled.
- `RepositoryServer.Server.GetAppDetails`: the request's application path `q.Path` is taken to be clean. Go cleans it inside `path.Join` and `filepath.Rel`, so a path such as `apps/` would give different value files there. The same holds for the sub-path of `ListApps`.
- `RepositoryServer.Server.Update`: the store's `UpdateRepository` is not part of this model. It is taken to find the record by normalized location, overwrite it and keep its type (see the comment at server/repository/repository.go:345). Its answer is the location only, as at line 350.
- The backing store's own failures are not modelled: reading, I/O and store errors other than NotFound. Its NotFound message is only the location. The Internal error of `Create` (the lookup failing after AlreadyExists) cannot happen with a consistent store and is not modelled. The policy's error message is a constant.
- `RepositoryServer.Server.List`: the concurrent hydration of `util.RunAllAsync` is a loop over the slots in index order. Workers write disjoint slots, but they share the cache, so this fixes one order of cache writes. The states returned do not depend on that order (`RepositoryServer.Server.HydrateAllIndependent`); the order of the writes is not modelled.
- Timestamps are the parameter `now`. Logging, gRPC connection handling (`util.Close`) and contexts are left out.
- The YAML parsing of app specs is an oracle that receives the pre-filled record. The fields of the Ksonnet and Helm specs beyond name, path and value files are not modelled.
- Go map iteration order is arbitrary: `ListApps` reports its order as a ghost result, and `GetAppDetails` picks the path with `:|`.
