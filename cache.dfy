/**
 * The connection-state cache the repository service consults: a keyed
 * store of the last known connectivity of each repository location.
 * Its writes may fail; whether the store takes a write for a key is the
 * oracle `accepts`.
 */
module ConnectionCache {
  import opened Wrappers
  import opened RepositoryTypes

  /** The entries after `SetRepoConnectionState(repo, state)`: `None` invalidates the key. */
  function AfterSet(entries: map<string, ConnectionState>, accepted: bool, repo: string, state: Option<ConnectionState>): (r: map<string, ConnectionState>)
    ensures !accepted ==> r == entries
    ensures accepted && state.None? ==> repo !in r
    ensures accepted && state.Some? ==> repo in r && r[repo] == state.value
    ensures forall k :: k != repo ==> (k in r <==> k in entries)
    ensures forall k :: k != repo && k in r ==> r[k] == entries[k]
  {
    if !accepted then entries
    else if state.None? then entries - {repo}
    else entries[repo := state.value]
  }

  class ConnectionStateCache {
    var entries: map<string, ConnectionState>
    const accepts: string -> bool

    constructor(accepts: string -> bool)
      ensures entries == map[] && this.accepts == accepts
    {
      entries := map[];
      this.accepts := accepts;
    }

    /** A lookup: the cached state, or the zero state and `found == false` on a miss. */
    method GetRepoConnectionState(repo: string) returns (state: ConnectionState, found: bool)
      ensures found <==> repo in entries
      ensures found ==> state == entries[repo]
      ensures !found ==> state == EmptyConnectionState
    {
      if repo in entries {
        return entries[repo], true;
      }
      return EmptyConnectionState, false;
    }

    /** A write (or, with `None`, an invalidation) that reports whether the store took it. */
    method SetRepoConnectionState(repo: string, state: Option<ConnectionState>) returns (ok: bool)
      modifies this
      ensures ok == accepts(repo)
      ensures entries == AfterSet(old(entries), ok, repo, state)
    {
      ok := accepts(repo);
      if ok {
        if state.None? {
          entries := entries - {repo};
        } else {
          entries := entries[repo := state.value];
        }
      }
    }
  }
}
