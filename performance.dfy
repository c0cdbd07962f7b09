/**
 * The parsed-configuration cache (performance.py:9-41): a table from config
 * file path to the configuration parsed from it, written, read and cleared
 * in place. The module-level dictionary becomes the field of one object.
 */
module Performance {
  import opened Wrappers

  /** The cache object; `entries` is `_config_cache`. */
  class ConfigCache<C> {
    var entries: map<string, C>

    /** An empty cache, as at module import (performance.py:10). */
    constructor()
      ensures entries == map[]
    {
      entries := map[];
    }

    /** `get_cached_config` (performance.py:27-36): the cached configuration, `None` for a path never cached. */
    function Get(path: string): (r: Option<C>)
      reads this
      ensures r.Some? <==> path in entries
      ensures r.Some? ==> r.value == entries[path]
    {
      if path in entries then Some(entries[path]) else None
    }

    /** `cache_config` (performance.py:13-24): stores `config` under `path` and hands it back. */
    method Cache(path: string, config: C) returns (r: C)
      modifies this
      ensures entries == old(entries)[path := config]
      ensures r == config
      ensures Get(path) == Some(config)
      ensures forall p :: p != path ==> Get(p) == old(Get(p))
    {
      entries := entries[path := config];
      r := config;
    }

    /** `clear_config_cache` (performance.py:39-41): afterwards every lookup is `None`. */
    method Clear()
      modifies this
      ensures entries == map[]
      ensures forall p :: Get(p) == None
    {
      entries := map[];
    }
  }
}
