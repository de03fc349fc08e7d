/**
 * The store file of the vault (internal/store/store.go): the `Store` and
 * `Secret` records, `LoadStore`, `SaveStore` and `InitializeStore`.
 *
 * The two directions do not agree on the file layout. `SaveStore` writes
 * salt[16] ‖ nonce[12] ‖ Seal(Argon2id(password, salt), nonce, json) while
 * `LoadStore` decrypts with SHA-256(password) and takes the first 12 bytes of
 * the file as the nonce. Both are modelled as written; `LoadBytesFixed` is the
 * loader that matches `SaveStore`, and `SaveThenFixedLoad` proves it inverts it.
 */
module Vault {
  import opened Base
  import opened Primitives
  import opened Fs

  /** A `time.Time` as nanoseconds; `ZeroTime` is Go's zero `time.Time`. */
  type Time = int

  const ZeroTime: Time := 0

  datatype Secret = Secret(name: GoString, value: GoString, category: GoString, createdAt: Time)

  datatype Store = Store(version: int, secrets: seq<Secret>)

  /** `&Store{Secrets: []Secret{}}`: no secrets and a Version left at 0. */
  const EmptyStore := Store(0, [])

  /** `json.Marshal` / `json.Unmarshal` of a `Store`. */
  datatype StoreCodec = StoreCodec(marshal: Store -> Bytes, unmarshal: Bytes -> Option<Store>)

  ghost predicate CodecSound(j: StoreCodec) {
    forall s :: j.unmarshal(j.marshal(s)) == Some(s)
  }

  datatype LoadError =
    | ReadError(cause: IoError)   // "failed to read store"
    | CipherError                 // "failed to create cipher"
    | DataTooShort                // "invalid data length"
    | EmptyCiphertext             // "invalid ciphertext: empty after nonce"
    | DecryptError                // "failed to decrypt"
    | UnmarshalError              // "failed to unmarshal store"

  /** LoadStore's decryption succeeds on `data` and yields `s`. */
  ghost predicate OpensAs(data: Bytes, password: GoString, c: Crypto, j: StoreCodec, s: Store) {
    && |data| > NonceSize
    && var pt := c.open(c.sha256(password), data[..NonceSize], data[NonceSize..]);
    && pt.Some? && j.unmarshal(pt.value) == Some(s)
  }

  /** The part of LoadStore after `os.ReadFile` has returned `data`. */
  function LoadBytes(data: Bytes, password: GoString, c: Crypto, j: StoreCodec): (r: Result<Store, LoadError>)
    ensures |data| == 0 ==> r == Ok(EmptyStore)
    ensures 0 < |data| && !CipherKeyOk(c.sha256(password)) ==> r == Err(CipherError)
    ensures 0 < |data| < NonceSize && CipherKeyOk(c.sha256(password)) ==> r == Err(DataTooShort)
    ensures |data| == NonceSize && CipherKeyOk(c.sha256(password)) ==> r == Err(EmptyCiphertext)
    ensures forall s :: |data| > 0 ==> (r == Ok(s) <==> CipherKeyOk(c.sha256(password)) && OpensAs(data, password, c, j, s))
  {
    if |data| == 0 then Ok(EmptyStore)
    else
      var key := c.sha256(password);
      if !CipherKeyOk(key) then Err(CipherError)
      else if |data| < NonceSize then Err(DataTooShort)
      else
        var nonce, ciphertext := data[..NonceSize], data[NonceSize..];
        if |ciphertext| == 0 then Err(EmptyCiphertext)
        else match c.open(key, nonce, ciphertext)
          case None => Err(DecryptError)
          case Some(plaintext) =>
            match j.unmarshal(plaintext)
            case None => Err(UnmarshalError)
            case Some(s) => Ok(s)
  }

  /** `LoadStore(filePath, password)`. */
  function LoadStore(d: Disk, path: Path, password: GoString, c: Crypto, j: StoreCodec): (r: Result<Store, LoadError>)
    ensures !Exists(d, path) ==> r == Ok(EmptyStore)
    ensures Exists(d, path) && path in d.unreadable ==> r == Err(ReadError(PermissionDenied))
    ensures Read(d, path).Data? ==> r == LoadBytes(d.files[path], password, c, j)
    ensures r != Err(ReadError(NotExist))
  {
    match Read(d, path)
    case ReadFailed(NotExist) => Ok(EmptyStore)
    case ReadFailed(cause) => Err(ReadError(cause))
    case Data(data) => LoadBytes(data, password, c, j)
  }

  datatype SaveError =
    | SaltPanic          // `data[:16]` of an unreadable file (a nil slice): a Go runtime panic
    | RandomFailed       // `rand.Read` failed
    | CipherFailed       // `aes.NewCipher` rejected the derived key
    | WriteFailed(cause: IoError)

  /**
   * The salt SaveStore uses: the first 16 bytes of the existing file, else a
   * fresh draw. `os.ReadFile` returns a slice with room for at least 512
   * bytes, so `data[:16]` of a file shorter than 16 bytes is the file followed
   * by zero bytes; only an unreadable file, read as a nil slice, panics.
   */
  function SaltFor(d: Disk, path: Path, saltDraw: Option<Bytes>): (r: Result<Bytes, SaveError>)
    requires saltDraw.Some? ==> |saltDraw.value| == SaltSize
    ensures r.Ok? ==> |r.value| == SaltSize
    ensures Exists(d, path) ==> (r.Ok? <==> Read(d, path).Data?)
    ensures Exists(d, path) && r.Ok? && |d.files[path]| >= SaltSize ==> r.value == d.files[path][..SaltSize]
    ensures Exists(d, path) && r.Ok? && |d.files[path]| < SaltSize ==>
              r.value[..|d.files[path]|] == d.files[path] && r.value[|d.files[path]|..] == Zeros(SaltSize - |d.files[path]|)
    ensures Exists(d, path) && r.Err? ==> r.error == SaltPanic
    ensures !Exists(d, path) ==> r == (if saltDraw.Some? then Ok(saltDraw.value) else Err(RandomFailed))
  {
    if Exists(d, path) then
      match Read(d, path)
      case ReadFailed(_) => Err(SaltPanic)
      case Data(data) => Ok(PaddedPrefix(data))
    else
      match saltDraw
      case None => Err(RandomFailed)
      case Some(salt) => Ok(salt)
  }

  /** `data[:16]` of a slice whose spare capacity holds zero bytes. */
  function PaddedPrefix(data: Bytes): (r: Bytes)
    ensures |r| == SaltSize
    ensures |data| >= SaltSize ==> r == data[..SaltSize]
    ensures |data| < SaltSize ==> r[..|data|] == data && r[|data|..] == Zeros(SaltSize - |data|)
  {
    var padded := data + Zeros(SaltSize);
    assert |data| < SaltSize ==> padded[|data|..SaltSize] == Zeros(SaltSize)[..SaltSize - |data|];
    padded[..SaltSize]
  }

  /** A save over an existing empty file uses sixteen zero bytes as its salt. */
  lemma EmptyFileGivesZeroSalt(d: Disk, path: Path, saltDraw: Option<Bytes>)
    requires saltDraw.Some? ==> |saltDraw.value| == SaltSize
    requires path in d.files && path !in d.unreadable && d.files[path] == []
    ensures SaltFor(d, path, saltDraw) == Ok(Zeros(SaltSize))
  {
    assert Read(d, path).Data?;
    var r := SaltFor(d, path, saltDraw).value;
    assert r[0..] == Zeros(SaltSize - 0);
  }

  /** The bytes SaveStore writes to `path`, or the error it stops with before writing. */
  function SavePlan(d: Disk, path: Path, password: GoString, s: Store, c: Crypto, j: StoreCodec,
                    saltDraw: Option<Bytes>, nonceDraw: Option<Bytes>): (r: Result<Bytes, SaveError>)
    requires saltDraw.Some? ==> |saltDraw.value| == SaltSize
    requires nonceDraw.Some? ==> |nonceDraw.value| == NonceSize
    ensures var salt := SaltFor(d, path, saltDraw);
            r.Ok? <==> salt.Ok? && CipherKeyOk(c.argon2id(password, salt.value)) && nonceDraw.Some?
    ensures SaltFor(d, path, saltDraw).Err? ==> r == Err(SaltFor(d, path, saltDraw).error)
    ensures r.Err? ==> !r.error.WriteFailed?
  {
    match SaltFor(d, path, saltDraw)
    case Err(e) => Err(e)
    case Ok(salt) =>
      var key := c.argon2id(password, salt);
      var plaintext := j.marshal(s);
      if !CipherKeyOk(key) then Err(CipherFailed)
      else
        match nonceDraw
        case None => Err(RandomFailed)
        case Some(nonce) => Ok(salt + nonce + c.seal(key, nonce, plaintext))
  }

  /** `SaveStore(filePath, password, store)`, with the salt and nonce draws of `crypto/rand` as inputs. */
  method SaveStore(fs: FileSystem, path: Path, password: GoString, s: Store, c: Crypto, j: StoreCodec,
                   saltDraw: Option<Bytes>, nonceDraw: Option<Bytes>) returns (err: Option<SaveError>)
    requires saltDraw.Some? ==> |saltDraw.value| == SaltSize
    requires nonceDraw.Some? ==> |nonceDraw.value| == NonceSize
    modifies fs
    ensures match SavePlan(old(fs.disk), path, password, s, c, j, saltDraw, nonceDraw)
      case Err(e) => err == Some(e) && fs.disk == old(fs.disk)
      case Ok(image) =>
        var w := Write(old(fs.disk), path, image);
        fs.disk == w.disk && err == (if w.err.Some? then Some(WriteFailed(w.err.value)) else None)
  {
    var salt: Bytes;
    if Exists(fs.disk, path) {
      var data := Read(fs.disk, path);   // the read error is ignored by the source
      if data.ReadFailed? {
        return Some(SaltPanic);
      }
      salt := PaddedPrefix(data.bytes);
    } else {
      if saltDraw.None? {
        return Some(RandomFailed);
      }
      salt := saltDraw.value;
    }
    var key := c.argon2id(password, salt);
    var plaintext := j.marshal(s);
    if !CipherKeyOk(key) {
      return Some(CipherFailed);
    }
    if nonceDraw.None? {
      return Some(RandomFailed);
    }
    var nonce := nonceDraw.value;
    var encrypted := c.seal(key, nonce, plaintext);
    var data := salt + nonce;
    data := data + encrypted;
    var werr := fs.WriteFile(path, data);
    if werr.Some? {
      return Some(WriteFailed(werr.value));
    }
    return None;
  }

  /** The store InitializeStore saves. */
  const InitialStore := Store(1, [])

  /** `InitializeStore(filePath, password)`: draws a salt it never uses, then saves `InitialStore`. */
  method InitializeStore(fs: FileSystem, path: Path, password: GoString, c: Crypto, j: StoreCodec,
                         unusedSaltDraw: Option<Bytes>, saltDraw: Option<Bytes>, nonceDraw: Option<Bytes>)
    returns (err: Option<SaveError>)
    requires saltDraw.Some? ==> |saltDraw.value| == SaltSize
    requires nonceDraw.Some? ==> |nonceDraw.value| == NonceSize
    modifies fs
    ensures unusedSaltDraw.None? ==> err == Some(RandomFailed) && fs.disk == old(fs.disk)
    ensures unusedSaltDraw.Some? ==> match SavePlan(old(fs.disk), path, password, InitialStore, c, j, saltDraw, nonceDraw)
      case Err(e) => err == Some(e) && fs.disk == old(fs.disk)
      case Ok(image) =>
        var w := Write(old(fs.disk), path, image);
        fs.disk == w.disk && err == (if w.err.Some? then Some(WriteFailed(w.err.value)) else None)
  {
    if unusedSaltDraw.None? {
      return Some(RandomFailed);
    }
    err := SaveStore(fs, path, password, InitialStore, c, j, saltDraw, nonceDraw);
  }

  /** Every file SaveStore writes is salt ‖ nonce ‖ Seal(Argon2id(password, salt), nonce, json). */
  lemma SaveLayout(d: Disk, path: Path, password: GoString, s: Store, c: Crypto, j: StoreCodec,
                   saltDraw: Option<Bytes>, nonceDraw: Option<Bytes>)
    requires saltDraw.Some? ==> |saltDraw.value| == SaltSize
    requires nonceDraw.Some? ==> |nonceDraw.value| == NonceSize
    requires SavePlan(d, path, password, s, c, j, saltDraw, nonceDraw).Ok?
    ensures var image := SavePlan(d, path, password, s, c, j, saltDraw, nonceDraw).value;
            var salt := image[..SaltSize];
            && nonceDraw.Some?
            && image[SaltSize..SaltSize + NonceSize] == nonceDraw.value
            && image[SaltSize + NonceSize..] == c.seal(c.argon2id(password, salt), nonceDraw.value, j.marshal(s))
            && |image| == SaltSize + NonceSize + |c.seal(c.argon2id(password, salt), nonceDraw.value, j.marshal(s))|
            && (Exists(d, path) ==> salt == PaddedPrefix(d.files[path]))
            && (!Exists(d, path) ==> saltDraw.Some? && salt == saltDraw.value)
  {
    var salt := SaltFor(d, path, saltDraw).value;
    var image := SavePlan(d, path, password, s, c, j, saltDraw, nonceDraw).value;
    assert image == salt + nonceDraw.value + c.seal(c.argon2id(password, salt), nonceDraw.value, j.marshal(s));
    assert image[..SaltSize] == salt;
  }

  /** Saving twice to the same path keeps the salt: the second save reuses the first save's prefix. */
  lemma {:induction false} SaltStableAcrossSaves(d: Disk, path: Path, p1: GoString, s1: Store, p2: GoString, s2: Store,
                                                 c: Crypto, j: StoreCodec, salt1: Option<Bytes>, nonce1: Option<Bytes>,
                                                 salt2: Option<Bytes>, nonce2: Option<Bytes>)
    requires salt1.Some? ==> |salt1.value| == SaltSize
    requires nonce1.Some? ==> |nonce1.value| == NonceSize
    requires salt2.Some? ==> |salt2.value| == SaltSize
    requires nonce2.Some? ==> |nonce2.value| == NonceSize
    requires path !in d.unreadable && path !in d.unwritable
    requires SavePlan(d, path, p1, s1, c, j, salt1, nonce1).Ok?
    ensures var first := SavePlan(d, path, p1, s1, c, j, salt1, nonce1).value;
            var d1 := Write(d, path, first).disk;
            SaltFor(d1, path, salt2) == Ok(first[..SaltSize])
  {
    var first := SavePlan(d, path, p1, s1, c, j, salt1, nonce1).value;
    SaveLayout(d, path, p1, s1, c, j, salt1, nonce1);
    var d1 := Write(d, path, first).disk;
    assert d1.files[path] == first;
    assert |first| >= SaltSize + NonceSize;
  }

  /**
   * What LoadStore does with a file SaveStore wrote: its "nonce" is the first
   * 12 bytes of the salt, its ciphertext starts with the last 4 salt bytes and
   * the real nonce, and its key is SHA-256 of the password instead of the
   * Argon2id key the data was sealed with.
   */
  lemma LoadSeesSaltAsNonce(d: Disk, path: Path, password: GoString, s: Store, c: Crypto, j: StoreCodec,
                            saltDraw: Option<Bytes>, nonceDraw: Option<Bytes>)
    requires saltDraw.Some? ==> |saltDraw.value| == SaltSize
    requires nonceDraw.Some? ==> |nonceDraw.value| == NonceSize
    requires SavePlan(d, path, password, s, c, j, saltDraw, nonceDraw).Ok?
    ensures var image := SavePlan(d, path, password, s, c, j, saltDraw, nonceDraw).value;
            var salt := image[..SaltSize];
            var sealed := c.seal(c.argon2id(password, salt), nonceDraw.value, j.marshal(s));
            && image[..NonceSize] == salt[..NonceSize]
            && image[NonceSize..] == salt[NonceSize..] + nonceDraw.value + sealed
            && forall s' :: OpensAs(image, password, c, j, s') <==>
                 var pt := c.open(c.sha256(password), salt[..NonceSize], salt[NonceSize..] + nonceDraw.value + sealed);
                 pt.Some? && j.unmarshal(pt.value) == Some(s')
  {
    var image := SavePlan(d, path, password, s, c, j, saltDraw, nonceDraw).value;
    SaveLayout(d, path, password, s, c, j, saltDraw, nonceDraw);
    var salt := image[..SaltSize];
    var sealed := c.seal(c.argon2id(password, salt), nonceDraw.value, j.marshal(s));
    assert image == salt + nonceDraw.value + sealed;
    assert image[NonceSize..] == salt[NonceSize..] + nonceDraw.value + sealed;
  }

  /** The loader that reads the layout SaveStore writes (the evident intent of LoadStore). */
  function LoadBytesFixed(data: Bytes, password: GoString, c: Crypto, j: StoreCodec): (r: Result<Store, LoadError>)
    ensures |data| == 0 ==> r == Ok(EmptyStore)
    ensures 0 < |data| <= SaltSize + NonceSize ==> r.Err?
  {
    if |data| == 0 then Ok(EmptyStore)
    else if |data| < SaltSize + NonceSize then Err(DataTooShort)
    else
      var salt, nonce, ciphertext := data[..SaltSize], data[SaltSize..SaltSize + NonceSize], data[SaltSize + NonceSize..];
      var key := c.argon2id(password, salt);
      if !CipherKeyOk(key) then Err(CipherError)
      else if |ciphertext| == 0 then Err(EmptyCiphertext)
      else match c.open(key, nonce, ciphertext)
        case None => Err(DecryptError)
        case Some(plaintext) =>
          match j.unmarshal(plaintext)
          case None => Err(UnmarshalError)
          case Some(s) => Ok(s)
  }

  /** LoadStore with `LoadBytesFixed` in place of the mismatched split. */
  function LoadStoreFixed(d: Disk, path: Path, password: GoString, c: Crypto, j: StoreCodec): (r: Result<Store, LoadError>)
    ensures !Exists(d, path) ==> r == Ok(EmptyStore)
    ensures Read(d, path).Data? ==> r == LoadBytesFixed(d.files[path], password, c, j)
  {
    match Read(d, path)
    case ReadFailed(NotExist) => Ok(EmptyStore)
    case ReadFailed(cause) => Err(ReadError(cause))
    case Data(data) => LoadBytesFixed(data, password, c, j)
  }

  /** With the fixed loader, loading what SaveStore wrote gives back the saved store. */
  lemma SaveThenFixedLoad(d: Disk, path: Path, password: GoString, s: Store, c: Crypto, j: StoreCodec,
                          saltDraw: Option<Bytes>, nonceDraw: Option<Bytes>)
    requires Sound(c) && CodecSound(j)
    requires saltDraw.Some? ==> |saltDraw.value| == SaltSize
    requires nonceDraw.Some? ==> |nonceDraw.value| == NonceSize
    requires path !in d.unreadable && path !in d.unwritable
    requires SavePlan(d, path, password, s, c, j, saltDraw, nonceDraw).Ok?
    ensures var image := SavePlan(d, path, password, s, c, j, saltDraw, nonceDraw).value;
            LoadStoreFixed(Write(d, path, image).disk, path, password, c, j) == Ok(s)
  {
    var image := SavePlan(d, path, password, s, c, j, saltDraw, nonceDraw).value;
    SaveLayout(d, path, password, s, c, j, saltDraw, nonceDraw);
    var salt := image[..SaltSize];
    var key := c.argon2id(password, salt);
    var sealed := c.seal(key, nonceDraw.value, j.marshal(s));
    assert |sealed| == |j.marshal(s)| + TagSize;
    var d1 := Write(d, path, image).disk;
    assert Read(d1, path) == Data(image);
    assert c.open(key, nonceDraw.value, sealed) == Some(j.marshal(s));
  }

  /*
   * A cipher that meets `Sound` and exposes the layout mismatch: its tag is
   * the first 16 bytes of the key, SHA-256 is constant zero and Argon2id is
   * constant one. Any cipher whose tag depends on the key behaves alike.
   */
  function ToyTag(key: Bytes): (r: Bytes)
    ensures |r| == TagSize
  {
    (key + Zeros(TagSize))[..TagSize]
  }

  function ToyOpen(key: Bytes, nonce: Bytes, ciphertext: Bytes): (r: Option<Bytes>)
    ensures r.Some? <==> |ciphertext| >= TagSize && ciphertext[|ciphertext| - TagSize..] == ToyTag(key)
    ensures r.Some? ==> ciphertext == r.value + ToyTag(key)
  {
    if |ciphertext| >= TagSize && ciphertext[|ciphertext| - TagSize..] == ToyTag(key) then
      Some(ciphertext[..|ciphertext| - TagSize])
    else None
  }

  const ToyCrypto := Crypto(
    (k: Bytes, n: Bytes, p: Bytes) => p + ToyTag(k),
    ToyOpen,
    (p: Bytes) => Zeros(KeySize),
    (p: Bytes, s: Bytes) => seq(KeySize, _ => 1))

  lemma ToyCryptoSound()
    ensures Sound(ToyCrypto)
  {
    forall k, n, p | |k| == KeySize && |n| == NonceSize
      ensures ToyCrypto.open(k, n, ToyCrypto.seal(k, n, p)) == Some(p)
    {
      var ct := p + ToyTag(k);
      assert ct[|ct| - TagSize..] == ToyTag(k);
      assert ct[..|ct| - TagSize] == p;
    }
  }

  /**
   * As written, LoadStore cannot read back what SaveStore wrote: with the sound
   * cipher `ToyCrypto`, every successful save of any store under any codec
   * loads as `DecryptError`.
   */
  lemma SaveThenLoadFails(d: Disk, path: Path, password: GoString, s: Store, j: StoreCodec,
                          saltDraw: Option<Bytes>, nonceDraw: Option<Bytes>)
    requires saltDraw.Some? ==> |saltDraw.value| == SaltSize
    requires nonceDraw.Some? ==> |nonceDraw.value| == NonceSize
    requires path !in d.unreadable && path !in d.unwritable
    requires SavePlan(d, path, password, s, ToyCrypto, j, saltDraw, nonceDraw).Ok?
    ensures Sound(ToyCrypto)
    ensures var image := SavePlan(d, path, password, s, ToyCrypto, j, saltDraw, nonceDraw).value;
            LoadStore(Write(d, path, image).disk, path, password, ToyCrypto, j) == Err(DecryptError)
  {
    ToyCryptoSound();
    var image := SavePlan(d, path, password, s, ToyCrypto, j, saltDraw, nonceDraw).value;
    SaveLayout(d, path, password, s, ToyCrypto, j, saltDraw, nonceDraw);
    var ones: Bytes := seq(KeySize, _ => 1);
    assert image[SaltSize + NonceSize..] == j.marshal(s) + ToyTag(ones);
    ToyLoadRejects(image, password, j, j.marshal(s));
    var d1 := Write(d, path, image).disk;
    assert Read(d1, path) == Data(image);
  }

  /** A file whose ToyCrypto tag was made with the Argon2id key does not open under the SHA-256 key. */
  lemma ToyLoadRejects(image: Bytes, password: GoString, j: StoreCodec, plaintext: Bytes)
    requires |image| >= SaltSize + NonceSize
    requires image[SaltSize + NonceSize..] == plaintext + ToyTag(seq(KeySize, _ => 1))
    ensures LoadBytes(image, password, ToyCrypto, j) == Err(DecryptError)
  {
    var ones: Bytes := seq(KeySize, _ => 1);
    var ct := image[NonceSize..];
    var sealed := plaintext + ToyTag(ones);
    assert image[|image| - TagSize..] == sealed[|sealed| - TagSize..];
    assert ct[|ct| - TagSize..] == ToyTag(ones);
    assert ToyTag(ones)[0] != ToyTag(Zeros(KeySize))[0];
    assert ToyOpen(Zeros(KeySize), image[..NonceSize], ct).None?;
  }
}
