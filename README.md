# vlxck — a Dafny model of the secret vault's core

vlxck is a command-line password vault. Secrets are records with a name, a
value, a category and a creation time. They live in one encrypted store file.
The commands `add`, `get`, `update`, `delete`, `list` and `import` load that
file with the master password, work on the list of secrets and save it back.
A small cache file keeps the master password for five minutes, so the next
command need not prompt for it.

This project models:

- the store file: `LoadStore`, `SaveStore`, `InitializeStore` and the byte
  layout each reads or writes (`store.dfy`);
- the password cache: `SetMasterPassword`, `GetMasterPassword` and
  `ClearMasterPassword` over a file system and a clock (`cache.dfy`), and the
  root command's choice between cache and prompt (`root.dfy`);
- the list work of the commands: add (`add.dfy`), get (`get.dfy`), update
  (`update.dfy`), delete (`delete.dfy`), list (`list.dfy`) and the merge mode
  of import (`import.dfy`); the first-match search and splice they share
  (`secrets.dfy`);
- the helpers in internal/utils: password generation, the key padding and
  byte split of `EncryptFile`/`DecryptFile`, and the validators behind the
  prompts (`utils.dfy`);
- the Google Drive client-ID recognizer (`clientid.dfy`).

Go strings are byte sequences (`Base.GoString`). The file system is a value
`Fs.Disk`: a map from path to contents, with the sets of paths that cannot be
read or written. `Fs.FileSystem` is the mutable object that the store and
cache methods update. Times are integer nanoseconds. Each random draw is an
input, and `None` stands for a failed `crypto/rand` read. AES-GCM, SHA-256
and Argon2id are function-valued fields of `Primitives.Crypto`. Their only
assumed property is `Sound`: Open undoes Seal for a 32-byte key and a 12-byte
nonce, and Seal adds a 16-byte tag. JSON and base64 are function-valued
fields of the codecs. Their assumed properties are `Vault.CodecSound` and
`PassCache.CacheCodecSound`.

Each command takes the result of `LoadStore` and returns a
`Command.Outcome`. `Save(store)` means the command calls `SaveStore` with
that store. `LoadAborted`, `Rejected` and `NotFound` mean it stops without
saving. `Show(value)` means `get` prints a value.

Where the design description and the code differ, the model follows the code:

- A missing or empty store file loads as an empty store whose Version is 0.
  Version 1 appears only in a file written by `InitializeStore`.
- LoadStore rejects data shorter than 12 bytes, not shorter than 28.
- SaveStore writes the store file directly. It does not write a temporary
  file and rename it; only the cache does that.
- In the import merge, the choices "l" and "s" both increment the same
  skipped counter. They are not counted separately.

## Model

| member | source | states |
|---|---|---|
| Fs.FileSystem.WriteFile | internal/store/store.go:140 | the error and the new disk are exactly those of `Write` on the old disk |
| Fs.FileSystem.RenameFile | internal/cache/cache.go:109-110 | the error and the new disk are exactly those of `Rename` on the old disk |
| Fs.FileSystem.RemoveFile | internal/cache/cache.go:187-192 | the error and the new disk are exactly those of `Remove` on the old disk |
| Fs.Read | internal/store/store.go:55 | `os.ReadFile`: it returns the file's bytes exactly when the file exists and is readable, and reports NotExist exactly when the path is absent |
| Fs.Write | internal/store/store.go:140 | `os.WriteFile`: it succeeds exactly when the path is writable; the new disk then maps the path to the data and leaves everything else alone; a failure changes nothing |
| Fs.Rename | internal/cache/cache.go:109-110 | `os.Rename`: it succeeds exactly when the source exists and both paths are writable; the contents then move to the target and the source is gone; a failure changes nothing |
| Fs.Remove | internal/cache/cache.go:187-192 | `os.Remove`: it succeeds exactly when the path exists and is writable; the path is then gone; a failure changes nothing |
| Vault.LoadBytes | internal/store/store.go:64-103 | once the file is read: empty data gives the empty store with no error; data shorter than 12 bytes gives "invalid data length", and exactly 12 bytes gives "empty after nonce"; a rejected key gives the cipher error; for non-empty data the result is Ok(s) exactly when the SHA-256 key opens bytes [12..) under nonce bytes [0..12) and the plaintext unmarshals to s |
| Vault.LoadStore | internal/store/store.go:54-62 | a missing file gives the empty store with no error; an unreadable file gives the read error; otherwise the result is LoadBytes of the contents; a NotExist error is never returned |
| Vault.SaltFor | internal/store/store.go:120-129 | when the file exists, the salt is its first 16 bytes, and a file shorter than 16 bytes is followed by zero bytes up to 16 (the spare capacity of the slice `os.ReadFile` returns); it fails with the slice panic exactly when the file cannot be read; when there is no file, the salt is the fresh 16-byte draw, and a failed draw is an error |
| Vault.PaddedPrefix | internal/store/store.go:121-123 | `data[:16]` of a read file: the first 16 bytes of a long file; a short file followed by zero bytes, 16 in all |
| Vault.EmptyFileGivesZeroSalt | internal/store/store.go:121-123 | a save over an existing empty file uses 16 zero bytes as its salt |
| Vault.SavePlan | internal/store/store.go:119-141 | the bytes are planned exactly when the salt is obtained, the Argon2id key is a valid AES key and the nonce draw succeeds; a salt error is returned unchanged; no planning error is a write error |
| Vault.OpensAs | internal/store/store.go:64-103 | the success condition of LoadStore's decryption: the data is longer than the nonce, bytes [12..) open under the SHA-256 key and nonce bytes [0..12), and the plaintext unmarshals to the store |
| Vault.SaveStore | internal/store/store.go:119-141 | the disk and the error after the call are exactly those of writing SavePlan's bytes; any error before the write leaves the disk unchanged and reports that error; a failed write is WriteFailed with the I/O cause |
| Vault.InitializeStore | internal/store/store.go:156-163 | the first salt draw only decides failure: if it fails, nothing is written; otherwise the call is SaveStore of `Store{Version: 1, Secrets: []}` with the other draws |
| Vault.SaveLayout | internal/store/store.go:130-140 | a saved file is salt ‖ nonce ‖ Seal(Argon2id(password, salt), nonce, json); its length is 16 + 12 + the sealed length; the salt is `data[:16]` of the old file (zero-padded when shorter) when the file existed, else the fresh draw |
| Vault.SaltStableAcrossSaves | internal/store/store.go:121-123 | after one successful save, the next save to the same path takes that file's first 16 bytes as its salt |
| Vault.LoadSeesSaltAsNonce | internal/store/store.go:70-91 | on a file SaveStore wrote, LoadStore's nonce is the first 12 bytes of the salt, and its ciphertext is the last 4 salt bytes ‖ real nonce ‖ sealed data; LoadStore opens it exactly when SHA-256(password) opens that split |
| Vault.SaveThenLoadFails | internal/store/store.go:54-141 | with `ToyCrypto`, a cipher that meets `Sound`, every successful save of any store loads back as a decryption error |
| Vault.LoadBytesFixed | internal/store/store.go:64-103 | the corrected loader: empty data gives the empty store with no error; any other data of at most 28 bytes is an error |
| Vault.LoadStoreFixed | internal/store/store.go:54-62 | the corrected LoadStore: a missing file gives the empty store, and a readable file's contents go through LoadBytesFixed |
| Vault.SaveThenFixedLoad | internal/store/store.go:119-141 | under sound crypto and codec, the corrected loader returns exactly the store that SaveStore wrote |
| PassCache.CacheImage | internal/cache/cache.go:94-105 | the text written to the cache file: base64 of nonce ‖ Seal(cache key, nonce, json); `SetSpec` and `SetThenGet` state what it holds and how Get reads it back |
| PassCache.TempFile | internal/cache/cache.go:104 | the temporary path is distinct from the cache path and four bytes longer |
| PassCache.ClearSpec | internal/cache/cache.go:187-192 | it succeeds exactly when the file is absent or removable; on success the file is gone; an absent file is a no-op with no error; only the cache file can change |
| PassCache.SetSpec | internal/cache/cache.go:62-116 | a timeout ≤ 0 is exactly ClearSpec; otherwise only the cache file and its ".tmp" can change; on success the cache file holds base64(nonce ‖ Seal(key, nonce, json{password, now+timeout})) and no ".tmp" is left; every error leaves the cache file as it was; a rename failure also removes the ".tmp"; every other error changes nothing |
| PassCache.DecodeCache | internal/cache/cache.go:135-172 | bad base64 gives the decode error; decoded data shorter than 12 bytes gives "ciphertext too short"; success means the bytes [12..) opened under nonce bytes [0..12) and unmarshalled to the result |
| PassCache.GetSpec | internal/cache/cache.go:123-181 | a missing cache file gives "" and no error; every error returns "" and changes nothing; the only disk change is the removal by ClearSpec; a returned password comes with no error and no disk change |
| PassCache.SetThenGet | internal/cache/cache.go:62-181 | under sound crypto and codec, after a successful set with timeout t at time now, a get at `later ≤ now + t` returns the password and changes nothing; at `later > now + t` it returns "", no error, and the cache file is gone |
| PassCache.PasswordCache.constructor | internal/cache/cache.go:28-32 | the object holds the given file system and configuration |
| PassCache.PasswordCache.Clear | internal/cache/cache.go:187-192 | the new disk and the error are exactly ClearSpec of the old disk |
| PassCache.PasswordCache.Set | internal/cache/cache.go:62-116 | the new disk and the error are exactly SetSpec of the old disk |
| PassCache.PasswordCache.Get | internal/cache/cache.go:123-181 | the password, the error and the new disk are exactly GetSpec of the old disk |
| SecretList.FirstIndex | cmd/get.go:32-33 | none exactly when no secret has the name; otherwise the index of a secret with that name, and no earlier secret has it |
| SecretList.RemoveFirstNamed | cmd/delete.go:32-34 | without a match the list is unchanged; with a match the result is the list with the first match spliced out, one shorter |
| SecretList.AppendFreshKeepsUnique | cmd/add.go:155-186 | appending a secret whose name is not present keeps the names unique |
| SecretList.RemoveKeepsUnique | cmd/delete.go:34 | removing the first match from a list with unique names keeps them unique and leaves no secret with that name |
| SecretList.RemoveKeepsOtherNames | cmd/import.go:86-91 | removing one name keeps every other name that was present |
| SecretList.RemoveKeepsSubset | cmd/import.go:86-91 | every secret left after the removal was in the original list |
| GetCmd.Lookup | cmd/get.go:32-37 | a value is found exactly when some secret has the name, and it is the value of the first such secret |
| GetCmd.GetRun | cmd/get.go:26-39 | a load error aborts; no match gives "Secret not found."; a match shows the first match's value; get never saves |
| GetCmd.GetReportsFirstMatch | cmd/get.go:32-36 | a secret with no earlier namesake has its own value reported, so later duplicates are never reported |
| DeleteCmd.DeleteRun | cmd/delete.go:24-43 | a load error aborts; no match gives not found without saving; a match saves the store with only the first match removed, Version kept |
| DeleteCmd.DeleteRemovesOne | cmd/delete.go:34 | the list after delete is one shorter; entries before the first match are unchanged, later entries shift down by one in order, and exactly the first match is gone from the multiset |
| AddCmd.NewEntry | cmd/add.go:182-186 | the new entry has the given name, value and category, and a zero CreatedAt |
| AddCmd.Appended | cmd/add.go:182-186 | the store after add keeps its Version and all earlier entries, with the new entry last |
| AddCmd.AddNonInteractive | cmd/add.go:133-195 | the checks in order: an empty name, then an empty value without --generate, then a duplicate name, each rejected without saving; with --generate the generated password of the given length replaces any value, and a failed generation is rejected; otherwise the given value is used; the save appends the entry last; unique names stay unique |
| AddCmd.AddInteractive | cmd/add.go:96-130 | it saves exactly when a name prompt accepts a fresh non-empty name; the value and category prompts must also succeed; the saved store is the old one with the new entry last; unique names stay unique |
| UpdateCmd.UpdatedEntry | cmd/update.go:51-63 | as written: name and CreatedAt kept; a generated value wins, then a non-empty value; any non-empty category, including the default "-", replaces the old one |
| UpdateCmd.IntendedEntry | cmd/update.go:39-56 | corrected: as UpdatedEntry, except that the default "-" keeps the old category; for any other category the two agree |
| UpdateCmd.NothingRequested | cmd/update.go:39 | the rejection condition: no value, the category left at its default "-", and no --generate |
| UpdateCmd.UpdateRun | cmd/update.go:26-73 | a load error aborts; an empty value, category "-" and no --generate is rejected; no match gives not found without saving; a match saves the store with only the first match rewritten by UpdatedEntry; --value overrides --generate; a failed generation is rejected |
| UpdateCmd.UpdateTouchesOnlyFirstMatch | cmd/update.go:49-57 | the rewrite changes only the first match; it keeps the list length and every name, so unique names stay unique |
| UpdateCmd.OmittedCategoryOverwrites | cmd/update.go:54-56 | as written, updating only the value with -c omitted sets the category of "mail" from "work" to "-" |
| ImportCmd.ActionOf | cmd/import.go:81-101 | "s" and "l" skip, "i" overwrites, and any other answer decides nothing, so the inner loop goes on |
| ImportCmd.Decide | cmd/import.go:76-103 | an imported name absent from the local list is appended; otherwise, with a resolver that answers only l, i or s, the action is the choice made for the first local namesake, asked for this import position |
| ImportCmd.Apply | cmd/import.go:81-107 | one decision counts the imported secret once, as imported or skipped; an overwrite also counts as overwritten; a skip leaves the list alone; otherwise the secret ends up last, and an append keeps the earlier entries |
| ImportCmd.MergeSpec | cmd/import.go:76-108 | the merged list and counters after the first imports, one Apply per imported secret; `MergeCounts`, `MergeLength`, `MergeKeepsLocalNames` and `MergeKeepsNamesUnique` state its properties |
| ImportCmd.RemoveFirst | cmd/import.go:86-91 | the loop removes the first merged entry with the name, as RemoveFirstNamed |
| ImportCmd.MergeOne | cmd/import.go:77-107 | one pass of the outer loop applies the action Decide chooses to the merged list and the counters |
| ImportCmd.ImportMerge | cmd/import.go:41-116 | a failed load of either file aborts; otherwise the merged list and the three counters are exactly MergeSpec, and the saved store is the local store, Version kept, with the merged list |
| ImportCmd.MergeCounts | cmd/import.go:76-108 | imported + skipped equals the number of imported secrets, and overwritten ≤ imported |
| ImportCmd.MergeKeepsLocalNames | cmd/import.go:70-108 | every local name is still present after the merge |
| ImportCmd.MergeLength | cmd/import.go:76-108 | the merged length is the local length + imported − overwritten |
| ImportCmd.NewNamesAppended | cmd/import.go:70-107 | when no imported name is local, the merge is the local list followed by all imports in order, with imported = their number |
| ImportCmd.OverwriteKeepsUnique | cmd/import.go:85-96 | choice "i" replaces the first namesake by the imported secret: unique names stay unique, and every name still comes from one of the two stores |
| ImportCmd.MergeKeepsNamesUnique | cmd/import.go:76-108 | with an l/i/s resolver and unique names on both sides, the merged names are unique, and each comes from the local or the imported list |
| ImportCmd.RepeatedImportAnsweredAgain | cmd/import.go:76-108 | the same record imported twice is asked about twice: answering "i" then "l" overwrites once and skips once, giving counts (1, 1, 1) |
| ImportCmd.MergeExample | cmd/import.go:70-108 | {a, b} merged with {b′, c}: "i" gives [a, b′, c] with counts (2, 0, 1); "l" gives [a, b, c] with counts (1, 1, 0) |
| ListCmd.TruncateString | cmd/list.go:27-32 | a string within the limit is kept; a longer one becomes its first maxLen−3 bytes ‖ "...", exactly maxLen long |
| ListCmd.InCategory | cmd/list.go:72-77 | the filtered list is no longer than the store, and with a category given every kept secret is in it |
| ListCmd.FilterByCategory | cmd/list.go:72-77 | the loop builds exactly InCategory of the secrets |
| ListCmd.EmptyCategoryKeepsAll | cmd/list.go:74 | the empty category keeps every secret, in order |
| ListCmd.InCategoryMembers | cmd/list.go:72-77 | a secret is in the filtered list exactly when it is in the store and the category is empty or equal to its own |
| ListCmd.InCategoryCounts | cmd/list.go:72-77 | every matching secret is kept as many times as it occurs |
| ListCmd.TotalPages | cmd/list.go:91 | the page count is the ceiling of n/10: enough pages for n rows, the last page not empty, and zero only for no rows |
| ListCmd.RowOf | cmd/list.go:162-165 | row k is numbered k + 1; its name and category are at most 20 bytes, and a field within the limit is shown unchanged |
| ListCmd.PageRows | cmd/list.go:155-166 | page p shows rows [10p, min(10p+10, n)), each numbered by its index + 1, with name and category cut to 20 bytes |
| ListCmd.PagesCoverAll | cmd/list.go:155-165 | every secret appears on page k/10 at position k mod 10, and on no other page or position |
| ListCmd.Navigate | cmd/list.go:101-117 | as written: the page stays in range; it quits exactly on "q"; end of input keeps the page |
| ListCmd.Session | cmd/list.go:94-121 | a browsing session starts on the given page and only ever shows pages in range |
| ListCmd.Browse | cmd/list.go:89-121 | the navigation loop shows exactly the pages, and finishes exactly when, the Session function says |
| ListCmd.EndOfInputSpins | cmd/list.go:94-121 | as written, with more than one page and stdin at end of input, each read shows the same page again and the loop never exits |
| ListCmd.NavigateFixed | cmd/list.go:101-117 | corrected: end of input quits like "q"; every other line behaves exactly as Navigate |
| ListCmd.ListRun | cmd/list.go:61-91 | a load error aborts; an empty filtered list says none was found; otherwise the pages are those of the filtered list, at least one |
| Utils.Alphabet | internal/utils/utils.go:41-47 | 52 letters, then 10 digits if numbers are on, then 14 symbols if symbols are on |
| Utils.Password | internal/utils/utils.go:37-57 | length < 1 is exactly the length error; success gives exactly length bytes, each from the alphabet |
| Utils.GeneratePassword | internal/utils/utils.go:37-57 | the array loop returns exactly Password |
| Utils.PadKey | internal/utils/utils.go:375-380 | the key is exactly 32 bytes: the password prefix, padded with zeros |
| Utils.EncryptFile | internal/utils/utils.go:370-399 | an empty password returns the data unchanged; otherwise it succeeds exactly when the nonce draw does, with a 12-byte nonce ‖ Seal(PadKey(password), nonce, data) |
| Utils.DecryptFile | internal/utils/utils.go:410-436 | data shorter than 12 bytes is returned unchanged with no error; otherwise the nonce is bytes [0..12) and the ciphertext the rest |
| Utils.EncryptThenDecrypt | internal/utils/utils.go:370-436 | with a sound cipher and a non-empty password, DecryptFile undoes EncryptFile |
| Utils.Entered | internal/utils/utils.go:127-138 | Enter at once submits the prompt's `Default`; once the user has typed, the submitted text is what was typed, possibly empty |
| Utils.PromptForInput | internal/utils/utils.go:127-138 | the result is the first submitted text that passes validation; the prompt aborts exactly when none does |
| Utils.ValidateSecretName | internal/utils/utils.go:213-223 | an empty name and a name already in the store are rejected, each with its own error; everything else is accepted |
| Utils.PromptForSecretName | internal/utils/utils.go:212-225 | an accepted name is non-empty and not in the store; it fails exactly when every submitted text is empty or taken |
| Utils.Atoi | internal/utils/utils.go:178 | a parsed number lies in the 64-bit range and comes from non-empty input; an unsigned decimal within range parses to its value |
| Utils.Itoa | internal/utils/utils.go:188 | the decimal text of the default is never empty, so accepting it never submits "" |
| Utils.AtoiItoa | internal/utils/utils.go:178-188 | every 64-bit integer parses back from its decimal text |
| Utils.ValidateInt | internal/utils/utils.go:174-186 | empty input is accepted (the default); accepted non-empty input parses to a number within [min, max]; unparsable input is "not a number" |
| Utils.PromptForInt | internal/utils/utils.go:173-201 | every result lies within [min, max] or is the default; the prompt fails exactly when no submission validates, and then with an abort |
| Utils.PromptForIntDefault | internal/utils/utils.go:188-200 | accepting the offered default returns the default when it lies within [min, max] |
| Utils.PromptForIntErasedDefault | internal/utils/utils.go:174-196 | an erased, empty submission passes the validator and returns the default, with no range check |
| Utils.PromptForIntTyped | internal/utils/utils.go:174-200 | a typed number within [min, max] is returned |
| Utils.ValidValue | internal/utils/utils.go:241-246 | the manual value validator: any non-empty text |
| Utils.ValidLength | internal/utils/utils.go:250-255 | the length validator: text that `strconv.Atoi` parses to a positive number |
| Utils.PromptForSecretValue | internal/utils/utils.go:233-278 | a returned value is never empty; a manual value is the first non-empty text submitted |
| Utils.DefaultLengthGenerates | internal/utils/utils.go:250-272 | accepting the offered length "16" generates a 16-character password from the chosen alphabet; it fails only when a random draw fails |
| Utils.PromptForCategory | internal/utils/utils.go:286-288 | the first submitted text is the category, with anything accepted; no submission means the prompt aborted |
| Utils.Label | internal/utils/utils.go:330 | the label of a secret starts with its name |
| Utils.FirstPrefixOwner | internal/utils/utils.go:336-340 | the index of the first secret whose name is a prefix of the choice; none exactly when no name is |
| Utils.PromptForSecret | internal/utils/utils.go:324-342 | as written: an empty list is an error, a failed selection is an error, and a selection returns the first secret whose name is a prefix of the chosen label |
| Utils.PromptForSecretPicksSelected | internal/utils/utils.go:336-341 | the selected secret is returned when no earlier name is a prefix of its label |
| Utils.PromptForSecretPicksWrong | internal/utils/utils.go:330-341 | with secrets "a" and "ab", choosing "ab" returns "a" |
| Utils.SelectSecret | internal/utils/utils.go:324-342 | corrected: the selected secret itself is returned; both error cases are as before |
| RootCmd.GetPassword | cmd/root.go:32-47 | with cacheOnSuccess the prompt is used; a cache error warns and then prompts; a non-empty cached password is used without prompting; an empty one falls through to the prompt; a cached result is never empty |
| RootCmd.ObtainPassword | cmd/root.go:32-47 | with cacheOnSuccess the cache is not read and the disk is unchanged; otherwise it reads the cache once and returns GetPassword of that read |
| RootCmd.CacheVerifiedPassword | cmd/root.go:20-55 | caches the password with the fixed five-minute timeout; the disk becomes SetSpec's, and the error is swallowed |
| RootCmd.CachedPasswordIsReused | cmd/root.go:20-55 | under sound crypto and codec, a command that runs within five minutes of a successful cacheVerifiedPassword gets the password from the cache without a prompt; after that it prompts |
| ClientId.LeadingDigits | internal/sync/google_drive.go:33 | the length of the longest all-digit prefix |
| ClientId.LeadingDigitsExact | internal/sync/google_drive.go:33 | a digit run that ends at a non-digit is exactly LeadingDigits |
| ClientId.ValidClientId | internal/sync/google_drive.go:32-42 | `validateClientIDFormat` accepts: a digit run, a hyphen, lower-case letters and digits, then `.apps.googleusercontent.com`; the lemmas below prove it equals the pattern |
| ClientId.RecognizerSound | internal/sync/google_drive.go:32-42 | every ID the recognizer accepts matches the pattern |
| ClientId.RecognizerComplete | internal/sync/google_drive.go:32-42 | every string the pattern matches is accepted |
| ClientId.RecognizerMatchesPattern | internal/sync/google_drive.go:32-42 | the recognizer accepts exactly the strings of the anchored pattern `^[0-9]+-[a-z0-9]+\.apps\.googleusercontent\.com$` |
| ClientId.ExampleAccepted | internal/sync/google_drive.go:39 | the example `123456789012-abcdefghi.apps.googleusercontent.com` is accepted |
| ClientId.NoUppercase | internal/sync/google_drive.go:33 | no byte of an accepted ID is an uppercase ASCII letter |

## Findings

| source | as written | input that shows it | evidently intended | confidence | as-written member | corrected member |
|---|---|---|---|---|---|---|
| internal/store/store.go:70-91 | LoadStore decrypts with SHA-256(password) and treats bytes [0..12) as the nonce, but SaveStore writes salt[16] ‖ nonce[12] ‖ Seal(Argon2id(password, salt), …) | any store saved by SaveStore and then loaded with the same password | LoadStore splits off the salt, derives the Argon2id key from it and takes the nonce from bytes [16..28) | not executed; high (the layouts differ by construction) | Vault.LoadStore, shown by Vault.SaveThenLoadFails and Vault.LoadSeesSaltAsNonce | Vault.LoadStoreFixed, proved by Vault.SaveThenFixedLoad |
| internal/utils/utils.go:336-341 | the chosen label is matched back by `strings.HasPrefix(choice, secret.Name)`, and the first secret whose name is a prefix wins | secrets named "a" and "ab"; the user selects "ab" | return the secret that was selected | not executed; high | Utils.PromptForSecret, shown by Utils.PromptForSecretPicksWrong | Utils.SelectSecret |
| cmd/update.go:54-82 | the category flag defaults to "-", and any non-empty category is written | `update -n mail --value new` on a secret in category "work", once the `-v` shorthand clash described under "## Left out" is removed (as `add` does with `-V`) | omitting -c keeps the category, as the rejection check at line 39 treats "-" as "not given" | not executed; medium | UpdateCmd.UpdatedEntry, shown by UpdateCmd.OmittedCategoryOverwrites | UpdateCmd.IntendedEntry |
| cmd/list.go:99-117 | when `scanner.Scan()` returns false the loop redraws the page and scans again | more than one page of secrets and stdin at end of file | end of input leaves the loop like "q" | not executed; high | ListCmd.Navigate, shown by ListCmd.EndOfInputSpins | ListCmd.NavigateFixed |

## Left out

- AES-GCM, SHA-256, Argon2id and internal/crypto/crypto.go are reduced to the `Sound` property, because they are cryptographic primitives; nothing is claimed about their security.
- JSON and base64 are reduced to exact round trips (`CodecSound`, `CacheCodecSound`). Go's encoding/json gives such a round trip only for valid UTF-8 strings; a secret holding invalid UTF-8 would come back altered, and the model does not capture that.
- `crypto/rand` draws and the clock are inputs, because they are nondeterministic.
- `cacheKeyMutex` and the signal goroutine in cmd/root.go are left out, because the model is sequential.
- The cache's `init` is left out: the cache path and key come from OS and hostname lookups, so `CacheConfig` takes them as given.
- Terminal I/O is left out: `PromptForPassword`, `PromptForSelect`, `PromptForConfirm`, `PromptForCategoryFilter`, `CopyToClipboard`, the tabwriter and ANSI table output, and the printed messages. The prompts are modelled by the lines the user submits.
- `PromptForConflictChoice` is the `Resolver` input, because it reads the terminal. The resolver takes the position of the imported secret, so each imported secret gets its own answer. It asks again on any other line and exits the process only when standard input ends or fails (internal/utils/utils.go:92-98), so it returns only "l", "i" or "s"; that is the `ResolverOk` assumption. The exit itself is not modelled.
- ListCmd.Navigate: takes the line after `strings.ToLower(strings.TrimSpace(...))`, because that normalisation is string handling outside the model.
- Utils.PromptForInput: takes a finite list of submissions. promptui re-prompts until a submission validates; the model finds the first valid one, and a list that runs out first is an abort (as Ctrl-D or Ctrl-C would be). Editing keys other than erasing and typing are not modelled; each submission is given by its final text.
- Utils.Atoi: its contract states the range of every result and the value of unsigned decimal text. Signed text is modelled in its body and covered by `AtoiItoa` only for text that `Itoa` produces.
- `os.MkdirAll` and file permission bits are left out, because the disk model has no directories or modes.
- The replace branch of `import` (cmd/import.go:117-148) is left out: it is a raw file copy.
- The `os.IsNotExist` initialisation branches in cmd/add.go:64-79 and cmd/import.go:52-68 are not modelled, because LoadStore never returns a NotExist error. `Vault.LoadStore` proves this in its contract.
- The `*Store` reference and in-place updates of `s.Secrets` are modelled as store values returned in `Outcome.Save`. The store is not shared with any other code, so aliasing has no visible effect.
- The sequencing of a command's `Run` is modelled in parts: the password choice (RootCmd), the load (the `loaded` input), the list work (each command) and the save (`Save(store)` standing for `SaveStore`). Their composition is not one member.
- The `aes.NewCipher` branch of `EncryptFile`/`DecryptFile` is left out, because PadKey always yields 32 bytes. The `cipher.NewGCM` errors are left out, because they cannot happen for an AES block.
- The regular-expression compile error in `validateClientIDFormat` is left out, because the pattern is a constant.
- The rest of internal/sync/google_drive.go, internal/sync/sync.go, internal/backup, internal/config and the CLI glue commands (export, restore, backup, list-backup, generate, sync, change-master, main.go) are left out: they do OAuth, the network, zip archives and YAML I/O.
- Go's `time.Time` is modelled as integer nanoseconds, so the cache expiry `now + timeout` is unbounded arithmetic. The monotonic clock reading is left out.
- SaveStore's debug output is left out.
- UpdateCmd.UpdateRun: models the body of `updateCmd.Run`. As written, the command's flag setup fails first: update.go:81 gives `--value` the shorthand `-v`, which the root command's persistent `--version` flag already uses (cmd/root.go:89). When cobra merges the persistent flags into the update command's flag set, pflag panics on the repeated shorthand, so `Run` is not reached. Cobra and pflag are outside the model, so this panic is not modelled.
- Vault.SaltFor: the runtime panic of `data[:16]` on an existing store file that cannot be read is modelled as the error `SaltPanic`; the process crash is not modelled.
