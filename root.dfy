/**
 * The password plumbing of cmd/root.go: `getPassword` chooses between the
 * cache and the prompt, and `cacheVerifiedPassword` caches a password that
 * unlocked the store.
 */
module RootCmd {
  import opened Base
  import opened Primitives
  import opened Fs
  import opened Vault
  import opened PassCache

  /** `cacheTimeout = 5 * time.Minute`, in nanoseconds. */
  const CacheTimeout := 5 * 60 * 1_000_000_000

  /** The password getPassword returns, whether it came from the cache, and whether it warned. */
  datatype Obtained = Obtained(password: GoString, fromCache: bool, warned: bool)

  /**
   * `getPassword(cacheOnSuccess)`, given what GetMasterPassword returned
   * (`cached`, only consulted when `cacheOnSuccess` is false) and what the
   * prompt would return. Its error result is always nil.
   */
  function GetPassword(cacheOnSuccess: bool, cached: CacheRead, prompted: GoString): (r: Obtained)
    ensures cacheOnSuccess ==> r == Obtained(prompted, false, false)
    ensures !cacheOnSuccess && cached.err.Some? ==> r == Obtained(prompted, false, true)
    ensures !cacheOnSuccess && cached.err.None? && cached.password != [] ==> r == Obtained(cached.password, true, false)
    ensures !cacheOnSuccess && cached.err.None? && cached.password == [] ==> r == Obtained(prompted, false, false)
    ensures r.fromCache ==> r.password != []
  {
    if !cacheOnSuccess && cached.err.Some? then Obtained(prompted, false, true)
    else if !cacheOnSuccess && cached.password != [] then Obtained(cached.password, true, false)
    else Obtained(prompted, false, false)
  }

  /** getPassword with the cache read performed: only `cacheOnSuccess == false` touches the disk. */
  method ObtainPassword(cache: PasswordCache, cacheOnSuccess: bool, now: Time, prompted: GoString) returns (r: Obtained)
    modifies cache.fs
    ensures cacheOnSuccess ==> r == Obtained(prompted, false, false) && cache.fs.disk == old(cache.fs.disk)
    ensures !cacheOnSuccess ==>
              var g := GetSpec(cache.config, old(cache.fs.disk), now);
              r == GetPassword(false, g, prompted) && cache.fs.disk == g.disk
  {
    if !cacheOnSuccess {
      var password, err := cache.Get(now);
      if err.Some? {
        return Obtained(prompted, false, true);
      } else if password != [] {
        return Obtained(password, true, false);
      }
    }
    return Obtained(prompted, false, false);
  }

  /** `cacheVerifiedPassword(password)`: a five-minute SetMasterPassword whose error only warns. */
  method CacheVerifiedPassword(cache: PasswordCache, password: GoString, now: Time, nonceDraw: Option<Bytes>)
    returns (warned: bool)
    requires nonceDraw.Some? ==> |nonceDraw.value| == NonceSize
    modifies cache.fs
    ensures var step := SetSpec(cache.config, old(cache.fs.disk), password, CacheTimeout, now, nonceDraw);
            cache.fs.disk == step.disk && warned == step.err.Some?
  {
    var err := cache.Set(password, CacheTimeout, now, nonceDraw);
    warned := err.Some?;
  }

  /**
   * Once a verified password has been cached, every getPassword(false) in the
   * next five minutes returns it without prompting; after that it prompts.
   */
  lemma CachedPasswordIsReused(cfg: CacheConfig, d: Disk, password: GoString, now: Time,
                               nonceDraw: Option<Bytes>, later: Time, prompted: GoString)
    requires Sound(cfg.crypto) && CacheCodecSound(cfg.codec) && |cfg.cacheKey| == KeySize
    requires nonceDraw.Some? ==> |nonceDraw.value| == NonceSize
    requires cfg.cacheFile !in d.unreadable && password != []
    requires SetSpec(cfg, d, password, CacheTimeout, now, nonceDraw).err.None?
    ensures var d1 := SetSpec(cfg, d, password, CacheTimeout, now, nonceDraw).disk;
            var r := GetPassword(false, GetSpec(cfg, d1, later), prompted);
            && (later <= now + CacheTimeout ==> r == Obtained(password, true, false))
            && (later > now + CacheTimeout ==> r == Obtained(prompted, false, false))
  {
    SetThenGet(cfg, d, password, CacheTimeout, now, nonceDraw, later);
  }
}
