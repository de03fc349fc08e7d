/**
 * The master-password cache (internal/cache/cache.go): an encrypted file
 * holding the password and its expiry time, read back by `GetMasterPassword`
 * until the expiry passes. The cache key and file path, computed once by the
 * package's `init`, are the configuration of a `PasswordCache`; the clock and
 * the nonce drawn from `crypto/rand` are inputs of the operations.
 */
module PassCache {
  import opened Base
  import opened Primitives
  import opened Fs
  import Vault

  /** `cacheData{Password, ExpiresAt}`. */
  datatype CacheData = CacheData(password: GoString, expiresAt: Vault.Time)

  /** `json.Marshal`/`json.Unmarshal` of `cacheData` and the standard base64 encoding. */
  datatype CacheCodec = CacheCodec(
    marshal: CacheData -> Option<Bytes>,
    unmarshal: Bytes -> Option<CacheData>,
    encode64: Bytes -> Bytes,
    decode64: Bytes -> Option<Bytes>)

  ghost predicate CacheCodecSound(j: CacheCodec) {
    && (forall x :: j.marshal(x).Some? ==> j.unmarshal(j.marshal(x).value) == Some(x))
    && (forall b :: j.decode64(j.encode64(b)) == Some(b))
  }

  datatype CacheConfig = CacheConfig(cacheFile: Path, cacheKey: Bytes, crypto: Crypto, codec: CacheCodec)

  datatype CacheError =
    | Unreadable(cause: IoError)     // "failed to read cache file"
    | DecodeFailed                   // "failed to decode cache data"
    | KeyRejected                   // "failed to create cipher"
    | TooShort                       // "ciphertext too short"
    | DecryptFailed                  // "failed to decrypt cache"
    | UnmarshalFailed                // "failed to unmarshal cache data"
    | MarshalFailed                  // "failed to marshal cache data"
    | NonceFailed                    // "failed to generate nonce"
    | TempWriteFailed(cause: IoError)    // "failed to write cache file"
    | RenameFailed(cause: IoError)   // "failed to update cache file"
    | RemoveFailed(cause: IoError)   // the error of `os.Remove` in ClearMasterPassword

  /** The error and the disk after a cache update. */
  datatype CacheStep = CacheStep(err: Option<CacheError>, disk: Disk)

  /** The password, error and disk after a cache read. */
  datatype CacheRead = CacheRead(password: GoString, err: Option<CacheError>, disk: Disk)

  /** `cacheFile + ".tmp"`. */
  function TempFile(p: Path): (r: Path)
    ensures r != p && |r| == |p| + 4
  {
    p + Lit(".tmp")
  }

  /** Only `changed` may differ between the two disks; the permission sets stay. */
  ghost predicate OnlyTouches(d: Disk, d': Disk, changed: set<Path>) {
    && d'.unreadable == d.unreadable && d'.unwritable == d.unwritable
    && forall p :: p !in changed ==> (p in d'.files <==> p in d.files) && (p in d.files ==> d'.files[p] == d.files[p])
  }

  /** What the cache file holds after a successful set: base64(nonce ‖ Seal(key, nonce, json)). */
  function CacheImage(cfg: CacheConfig, nonce: Bytes, plaintext: Bytes): Bytes {
    cfg.codec.encode64(nonce + cfg.crypto.seal(cfg.cacheKey, nonce, plaintext))
  }

  /** `ClearMasterPassword()`. */
  function ClearSpec(file: Path, d: Disk): (r: CacheStep)
    ensures r.err.None? <==> file !in d.files || file !in d.unwritable
    ensures r.err.None? ==> file !in r.disk.files
    ensures r.err.Some? ==> r.disk == d
    ensures file !in d.files ==> r == CacheStep(None, d)
    ensures OnlyTouches(d, r.disk, {file})
  {
    if Exists(d, file) then
      var rm := Remove(d, file);
      CacheStep(if rm.err.Some? then Some(RemoveFailed(rm.err.value)) else None, rm.disk)
    else CacheStep(None, d)
  }

  /** `SetMasterPassword(password, timeout)` called at time `now`. */
  function SetSpec(cfg: CacheConfig, d: Disk, password: GoString, timeout: int, now: Vault.Time,
                   nonceDraw: Option<Bytes>): (r: CacheStep)
    requires nonceDraw.Some? ==> |nonceDraw.value| == NonceSize
    ensures timeout <= 0 ==> r == ClearSpec(cfg.cacheFile, d)
    ensures timeout > 0 ==> OnlyTouches(d, r.disk, {cfg.cacheFile, TempFile(cfg.cacheFile)})
    ensures timeout > 0 && r.err.Some? ==>
              (cfg.cacheFile in r.disk.files <==> cfg.cacheFile in d.files)
              && (cfg.cacheFile in d.files ==> r.disk.files[cfg.cacheFile] == d.files[cfg.cacheFile])
    ensures timeout > 0 && r.err.Some? && !r.err.value.RenameFailed? ==> r.disk == d
    ensures timeout > 0 && r.err.Some? && r.err.value.RenameFailed? ==>
              r.disk == d.(files := d.files - {TempFile(cfg.cacheFile)})
    ensures timeout > 0 && r.err.None? ==>
              && nonceDraw.Some?
              && cfg.codec.marshal(CacheData(password, now + timeout)).Some?
              && TempFile(cfg.cacheFile) !in r.disk.files
              && cfg.cacheFile in r.disk.files
              && r.disk.files[cfg.cacheFile] ==
                 CacheImage(cfg, nonceDraw.value, cfg.codec.marshal(CacheData(password, now + timeout)).value)
  {
    if timeout <= 0 then ClearSpec(cfg.cacheFile, d)
    else
      match cfg.codec.marshal(CacheData(password, now + timeout))
      case None => CacheStep(Some(MarshalFailed), d)
      case Some(plaintext) =>
        if !CipherKeyOk(cfg.cacheKey) then CacheStep(Some(KeyRejected), d)
        else match nonceDraw
          case None => CacheStep(Some(NonceFailed), d)
          case Some(nonce) =>
            var tmp := TempFile(cfg.cacheFile);
            var w := Write(d, tmp, CacheImage(cfg, nonce, plaintext));
            if w.err.Some? then CacheStep(Some(TempWriteFailed(w.err.value)), d)
            else
              var rn := Rename(w.disk, tmp, cfg.cacheFile);
              if rn.err.Some? then CacheStep(Some(RenameFailed(rn.err.value)), Remove(w.disk, tmp).disk)
              else CacheStep(None, rn.disk)
  }

  /** The decoding part of GetMasterPassword, after the file was read. */
  function DecodeCache(cfg: CacheConfig, data: Bytes): (r: Result<CacheData, CacheError>)
    ensures cfg.codec.decode64(data).None? ==> r == Err(DecodeFailed)
    ensures cfg.codec.decode64(data).Some? && CipherKeyOk(cfg.cacheKey) && |cfg.codec.decode64(data).value| < NonceSize
            ==> r == Err(TooShort)
    ensures r.Ok? ==>
      && cfg.codec.decode64(data).Some?
      && var raw := cfg.codec.decode64(data).value;
      && CipherKeyOk(cfg.cacheKey) && |raw| >= NonceSize
      && var pt := cfg.crypto.open(cfg.cacheKey, raw[..NonceSize], raw[NonceSize..]);
      && pt.Some? && cfg.codec.unmarshal(pt.value) == Some(r.value)
  {
    match cfg.codec.decode64(data)
    case None => Err(DecodeFailed)
    case Some(raw) =>
      if !CipherKeyOk(cfg.cacheKey) then Err(KeyRejected)
      else if |raw| < NonceSize then Err(TooShort)
      else match cfg.crypto.open(cfg.cacheKey, raw[..NonceSize], raw[NonceSize..])
        case None => Err(DecryptFailed)
        case Some(plaintext) =>
          match cfg.codec.unmarshal(plaintext)
          case None => Err(UnmarshalFailed)
          case Some(cd) => Ok(cd)
  }

  /** `GetMasterPassword()` called at time `now`. */
  function GetSpec(cfg: CacheConfig, d: Disk, now: Vault.Time): (r: CacheRead)
    ensures !Exists(d, cfg.cacheFile) ==> r == CacheRead([], None, d)
    ensures r.err.Some? ==> r.password == [] && r.disk == d
    ensures r.disk == d || r.disk == ClearSpec(cfg.cacheFile, d).disk
    ensures r.password != [] ==> r.disk == d && r.err.None?
  {
    match Read(d, cfg.cacheFile)
    case ReadFailed(NotExist) => CacheRead([], None, d)
    case ReadFailed(cause) => CacheRead([], Some(Unreadable(cause)), d)
    case Data(data) =>
      match DecodeCache(cfg, data)
      case Err(e) => CacheRead([], Some(e), d)
      case Ok(cd) =>
        if now > cd.expiresAt then CacheRead([], None, ClearSpec(cfg.cacheFile, d).disk)
        else CacheRead(cd.password, None, d)
  }

  /** A password set with a positive timeout is returned until it expires. */
  lemma SetThenGet(cfg: CacheConfig, d: Disk, password: GoString, timeout: int, now: Vault.Time,
                   nonceDraw: Option<Bytes>, later: Vault.Time)
    requires Sound(cfg.crypto) && CacheCodecSound(cfg.codec) && |cfg.cacheKey| == KeySize
    requires nonceDraw.Some? ==> |nonceDraw.value| == NonceSize
    requires timeout > 0 && cfg.cacheFile !in d.unreadable
    requires SetSpec(cfg, d, password, timeout, now, nonceDraw).err.None?
    ensures var d1 := SetSpec(cfg, d, password, timeout, now, nonceDraw).disk;
            var r := GetSpec(cfg, d1, later);
            && r.err.None?
            && (later <= now + timeout ==> r.password == password && r.disk == d1)
            && (later > now + timeout ==> r.password == [] && cfg.cacheFile !in r.disk.files)
  {
    var d1 := SetSpec(cfg, d, password, timeout, now, nonceDraw).disk;
    var cd := CacheData(password, now + timeout);
    var plaintext := cfg.codec.marshal(cd).value;
    var nonce := nonceDraw.value;
    var sealed := cfg.crypto.seal(cfg.cacheKey, nonce, plaintext);
    var raw := nonce + sealed;
    assert Read(d1, cfg.cacheFile) == Data(cfg.codec.encode64(raw));
    assert cfg.codec.decode64(cfg.codec.encode64(raw)) == Some(raw);
    assert raw[..NonceSize] == nonce && raw[NonceSize..] == sealed;
    assert cfg.crypto.open(cfg.cacheKey, nonce, sealed) == Some(plaintext);
    assert DecodeCache(cfg, cfg.codec.encode64(raw)) == Ok(cd);
    assert cfg.cacheFile !in d1.unwritable by {
      assert d1.unwritable == d.unwritable;
      var tmp := TempFile(cfg.cacheFile);
      var w := Write(d, tmp, CacheImage(cfg, nonce, plaintext));
      assert Rename(w.disk, tmp, cfg.cacheFile).err.None?;
    }
  }

  /**
   * The package-level state of internal/cache: the cache file path and key,
   * and the file system the three operations read and update.
   */
  class PasswordCache {
    const fs: FileSystem
    const config: CacheConfig

    constructor (fs: FileSystem, config: CacheConfig)
      ensures this.fs == fs && this.config == config
    {
      this.fs := fs;
      this.config := config;
    }

    method Clear() returns (err: Option<CacheError>)
      modifies fs
      ensures CacheStep(err, fs.disk) == ClearSpec(config.cacheFile, old(fs.disk))
    {
      err := None;
      if Exists(fs.disk, config.cacheFile) {
        var rerr := fs.RemoveFile(config.cacheFile);
        if rerr.Some? {
          err := Some(RemoveFailed(rerr.value));
        }
      }
    }

    method Set(password: GoString, timeout: int, now: Vault.Time, nonceDraw: Option<Bytes>) returns (err: Option<CacheError>)
      requires nonceDraw.Some? ==> |nonceDraw.value| == NonceSize
      modifies fs
      ensures CacheStep(err, fs.disk) == SetSpec(config, old(fs.disk), password, timeout, now, nonceDraw)
    {
      if timeout <= 0 {
        err := Clear();
        return;
      }
      var plaintext := config.codec.marshal(CacheData(password, now + timeout));
      if plaintext.None? {
        return Some(MarshalFailed);
      }
      if !CipherKeyOk(config.cacheKey) {
        return Some(KeyRejected);
      }
      if nonceDraw.None? {
        return Some(NonceFailed);
      }
      var nonce := nonceDraw.value;
      var ciphertext := nonce + config.crypto.seal(config.cacheKey, nonce, plaintext.value);
      var tmp := TempFile(config.cacheFile);
      var werr := fs.WriteFile(tmp, config.codec.encode64(ciphertext));
      if werr.Some? {
        return Some(TempWriteFailed(werr.value));
      }
      var rerr := fs.RenameFile(tmp, config.cacheFile);
      if rerr.Some? {
        var _ := fs.RemoveFile(tmp);
        return Some(RenameFailed(rerr.value));
      }
      return None;
    }

    method Get(now: Vault.Time) returns (password: GoString, err: Option<CacheError>)
      modifies fs
      ensures CacheRead(password, err, fs.disk) == GetSpec(config, old(fs.disk), now)
    {
      var data := Read(fs.disk, config.cacheFile);
      if data.ReadFailed? {
        if data.cause == NotExist {
          return [], None;
        }
        return [], Some(Unreadable(data.cause));
      }
      var decoded := DecodeCache(config, data.bytes);
      if decoded.Err? {
        return [], Some(decoded.error);
      }
      if now > decoded.value.expiresAt {
        var _ := Clear();
        return [], None;
      }
      return decoded.value.password, None;
    }
  }
}
