# MyDrive core, modelled in Dafny

MyDrive lets a signed-in user connect a Google Drive account and keeps per-account
bookkeeping on an Azure file share. This project models the self-contained logic of that
service and proves what it promises:

- **Access cache and token refresh** (`google_provider.dfy`): `GoogleProvider.GetAccess`
  keeps a first-in first-out table of at most 100 access objects with distinct ids.
  `AccessTokenProvider.GetAccessToken` is the two-field token/expiry state machine.
  The module also holds the refresh-grant body, the empty-token guard and the consent-page
  address.
- **Per-account file store** (`storage_access.dfy`, `name_sets.dfy`, `name_set_json.dfy`):
  the share is the class `Share` with two maps, the account directory and its `backup`
  subdirectory. `Save`, `ReadFile`, `Delete`, `MoveToBackup` and `Rename` update these maps.
  `ListFiles` reconciles them. It loads or rebuilds the backed-up name set kept in
  `backup.drop`, sweeps every `*.file` into it, saves it and moves those files. The
  `HashSet<string>` is a sequence without repetitions in insertion order. Its JSON text is
  an array of string literals.
- **Drive items** (`file_item.dfy`): `FullName` over the parent chain, `IsFolder`, and the
  conversion from a Google Drive file.
- **API records** (`records.dfy`): epoch-millisecond conversion on 100 ns ticks, and the
  defaults of `CacheStatusResponse`.
- **OAuth callback page** (`callback.dfy`): `getValueFromUrl`, the redirect address and
  the `code` guard of `ngOnInit`.
- **Bearer-token check** (`jwt_helper.dfy`): the header checks of `JwtHelper.getId`, the
  token extraction and the at-most-two-attempt validation loop. The configuration manager
  is a small class.
- `strings.dfy` and `wrappers.dfy` hold the string calls of .NET and JavaScript that these
  use, and `Option`/`Result`.

Things outside the program are parameters:

- the stored Google configuration (`StoredConfig`);
- whether a new access reaches the drive (`hasAccess`);
- the token endpoint's reply (`reply`);
- the current instant (`now`, in ticks);
- the keys the identity provider publishes (`published`);
- the token handler (`validate`).

The order in which a directory listing yields names is the share's choice. The model picks
it nondeterministically, and the contracts hold for every order.

## Model

| member | source | states |
|---|---|---|
| GoogleProvider.Lookup | BI/GoogleProvider.cs:58 | null exactly when no entry has the id; otherwise the access of the first entry with that id |
| GoogleProvider.Evict | BI/GoogleProvider.cs:78-81 | at most 100 entries remain, and they are the most recent ones, a suffix of the cache |
| GoogleProvider.EvictOldest | BI/GoogleProvider.cs:77-81 | appending to a full cache drops exactly the first-inserted entry (first in, first out) |
| GoogleProvider.EvictKeepsIdsDistinct | BI/GoogleProvider.cs:58-81 | appending an id that missed and evicting keeps the cached ids distinct |
| GoogleProvider.GoogleProvider.GetAccess | BI/GoogleProvider.cs:56-88 | a hit returns the cached access and leaves the cache unchanged; unparsable config throws; a missing config or null token gives null; a new access is appended and evicted only when it has access; every null leaves the cache unchanged; the bound of 100 and distinct ids are kept |
| GoogleProvider.RefreshRequestBody | BI/GoogleProvider.cs:114-118 | the form body starts with the client id and ends with the refresh-token grant type |
| GoogleProvider.FetchAccessTokenFromGoogle | BI/GoogleProvider.cs:105-127 | an empty refresh token gives null and posts nothing; otherwise the refresh grant is posted and the reply is returned |
| GoogleProvider.AccessTokenProvider.GetAccessToken | BI/GoogleProvider.cs:175-193 | a stored token that has not expired is returned without a fetch; otherwise a fetched token is stored with expiry `now + (expires_in - 10)` seconds; a failed fetch returns null and changes nothing |
| GoogleProvider.CreateRequestAccessUrl | BI/GoogleProvider.cs:90-103 | the address starts with the consent endpoint, has `login_hint=<email>&` right after the fixed parameters, and ends with `client_id=<id>&` |
| NameSets.Add | BI/StorageAccess.cs:97 | `HashSet.Add`: the earlier elements stay in place, the element is present once, and there are no repetitions |
| NameSets.AddAll | BI/StorageAccess.cs:80-83 | adding a sequence gives the union of the elements, without repetitions, with the original as a prefix |
| NameSets.AddAllFresh | BI/StorageAccess.cs:80-83 | adding names not yet present appends them in order |
| NameSetJson.Encode | BI/StorageAccess.cs:100 | a name set serialises to a JSON array, `[]` exactly when empty, never the `null` literal |
| NameSetJson.EncodeString | BI/StorageAccess.cs:84 | a string that may be null serialises to `null` exactly when it is null, and to a string literal otherwise |
| NameSetJson.Decode | BI/StorageAccess.cs:75 | `null` gives a null set and nothing else does; a name set read has no repetitions and comes from an array text; a text that is neither `null` nor starts with `[` throws |
| NameSetJson.DecodeEncode | BI/StorageAccess.cs:100 | reading back a saved name set gives that set, in the order saved |
| NameSetJson.DecodeEncodeString | BI/StorageAccess.cs:84 | the text saved when rebuilding is `null` when there was no text, and is not a name set otherwise |
| StorageAccess.Swept | BI/StorageAccess.cs:94-97 | the swept names are exactly the listed names ending in `.file`, in listing order, without repetitions |
| StorageAccess.BackupDropIsNotSwept | BI/StorageAccess.cs:94 | `backup.drop` itself is never swept |
| StorageAccess.Share.Delete | BI/StorageAccess.cs:163-167 | the name is absent afterwards, and deleting a missing name changes nothing |
| StorageAccess.Share.Save | BI/StorageAccess.cs:108-124 | after saving `v`, reading the name gives `v`; saving null leaves the file deleted; nothing else changes |
| StorageAccess.Share.ReadFile | BI/StorageAccess.cs:126-140 | the text of an existing deflated file; null for a missing or unreadable file, never an error |
| StorageAccess.Share.MoveToBackup | BI/StorageAccess.cs:169-180 | a missing file changes nothing; otherwise the file leaves the account directory and replaces any same-named backup |
| StorageAccess.Share.Rename | BI/StorageAccess.cs:182-186 | a missing source or an existing target is an error that changes nothing; otherwise the file is under the new name with the same content |
| StorageAccess.Share.LoadBackupSet | BI/StorageAccess.cs:74-86 | a stored name set is used as is; when the file is missing or unreadable or holds `null`, the set is rebuilt from the backup directory's names and the file rewritten; any other text is an error that changes nothing |
| StorageAccess.Sweep | BI/StorageAccess.cs:89-99 | the answer is the prior set followed by the listing; the names to move are the swept ones; the new set is the prior set with them added |
| StorageAccess.SweptListing | BI/StorageAccess.cs:91-97 | the swept names of the listing are exactly the directory's `*.file` names |
| StorageAccess.Share.MoveAllToBackup | BI/StorageAccess.cs:101-104 | exactly the given files leave the account directory for the backup directory, with their contents |
| StorageAccess.FinalDirectories | BI/StorageAccess.cs:100-104 | after saving the set and moving the swept files, no `*.file` remains, and each moved file keeps its content |
| StorageAccess.Share.ListFiles | BI/StorageAccess.cs:72-106 | malformed `backup.drop` is an error that changes nothing; otherwise the answer is the prior set followed by every directory name; every `*.file` is moved to backup and no other file is; `backup.drop` holds the prior set plus the swept names |
| StorageAccess.EnumerateDirectory | BI/StorageAccess.cs:88 | a listing yields every name of the directory once |
| FileItems.FullName | API/FileItem.cs:24-34 | the full name ends with the item's name |
| FileItems.FullNameIsLineage | API/FileItem.cs:24-34 | the full name is the names along the parent chain joined with `/`; a parentless item's full name is its name |
| FileItems.FullNameExtendsParent | API/FileItem.cs:32 | an item with a parent has the parent's full name and a `/` in front of its name |
| FileItems.FromGoogleFile | API/FileItem.cs:42-52 | the fields are copied; `Binary` holds exactly when there is an MD5 checksum; `ParentId` is the first parent; `IsFolder` holds exactly for the folder MIME type; a new item has no actions and its full name is its name |
| Records.TruncatingDiv | API/Records.cs:45 | the quotient is truncated toward zero |
| Records.EpochIsZero | API/Records.cs:41-51 | the epoch converts to 0, and 0 converts to the epoch |
| Records.ToEpoch | API/Records.cs:43-46 | the milliseconds between the epoch and the instant, truncated toward the epoch: at or after it, the whole milliseconds not exceeding the ticks elapsed; before it, the negated whole milliseconds not exceeding the ticks remaining |
| Records.FromEpoch | API/Records.cs:48-51 | converting milliseconds to an instant and back with `ToEpoch` gives the same milliseconds |
| Records.ToEpochMonotone | API/Records.cs:45 | a later instant never gives fewer milliseconds |
| Records.ToEpochDropsSubMilliseconds | API/Records.cs:45 | the milliseconds lie less than a millisecond from the instant, on the epoch's side |
| Strings.LastIndexOf | ClientApp/src/app/callback/callback.component.ts:17 | `lastIndexOf`: -1 exactly when the character is absent; otherwise its last position |
| Strings.Contains | ClientApp/src/app/callback/callback.component.ts:18 | `includes` holds exactly when the text occurs at some position |
| Strings.SplitJoin | ClientApp/src/app/callback/callback.component.ts:28 | `split` gives back the pieces that were joined with the separator |
| Callback.FindWithPrefix | ClientApp/src/app/callback/callback.component.ts:29 | `find` is undefined exactly when no pair starts with the prefix; otherwise it is the first pair that does |
| Callback.GetValueFromUrl | ClientApp/src/app/callback/callback.component.ts:26-30 | an address without `?` fails |
| Callback.GetValueFromQuery | ClientApp/src/app/callback/callback.component.ts:28 | only the text between the first `?` and the next one is read |
| Callback.ValueOfPair | ClientApp/src/app/callback/callback.component.ts:28-29 | the value of `key=value` is found when no earlier pair starts with the key |
| Callback.PrefixCollision | ClientApp/src/app/callback/callback.component.ts:29 | a pair whose name only starts with the key is taken for it, and the value read is the end of the longer name |
| Callback.PrefixCollisionExample | ClientApp/src/app/callback/callback.component.ts:29 | on `/callback?codex=1&code=abc` the page reads `=1`; the whole-name lookup reads `abc` |
| Callback.GetValueOfKeyFromUrl | ClientApp/src/app/callback/callback.component.ts:26-30 | the corrected lookup, which matches the whole pair name; an address without `?` fails |
| Callback.ValueOfKeyPair | ClientApp/src/app/callback/callback.component.ts:28-29 | with whole-name matching, `key=value` is found whatever the earlier pairs' names start with |
| Callback.RedirectUri | ClientApp/src/app/callback/callback.component.ts:16-17 | the redirect ends with `/callback`, after the address up to its last `/`; it is just `/callback` when there is no `/` |
| Callback.OnInit | ClientApp/src/app/callback/callback.component.ts:14-24 | the page stays exactly when the address has no `code`; it fails exactly when the address contains `code` but the lookup finds no value, and finishes exactly when it finds one, sending the value read and the redirect |
| Callback.NoCodePairFails | ClientApp/src/app/callback/callback.component.ts:18-19 | an address that contains `code` but has no pair starting with `code` makes the page fail |
| Callback.RefusalFails | ClientApp/src/app/callback/callback.component.ts:18-19 | a refused consent, `/callback?error=access_denied&state=googlecode`, makes the page fail, and the corrected page stays |
| Callback.NoCodePairStays | ClientApp/src/app/callback/callback.component.ts:18-19 | the corrected page stays on such an address |
| Callback.OnInitChecked | ClientApp/src/app/callback/callback.component.ts:14-24 | the corrected page never fails; it finishes exactly when a `code` pair exists, with that pair's value |
| JwtHelper.LowerPrefix | BI/JwtHelper.cs:32-36 | lowering works character by character: the first characters of the lowered header are the lowered first characters, so the prefix test sees only the first seven |
| JwtHelper.BearerToken | BI/JwtHelper.cs:27-36 | no header gives "no auth"; a first value that does not start with `bearer ` in any case gives "no bearer"; otherwise the token is the value without its first seven characters |
| JwtHelper.BearerTokenOf | BI/JwtHelper.cs:32-36 | `<prefix lowering to "bearer "><token>` gives the token back |
| JwtHelper.Identify | BI/JwtHelper.cs:56-59 | a valid payload gives the `oid` claim (null when not a string) and the first e-mail; a missing claim or empty e-mail list escapes as another exception |
| JwtHelper.Attempts | BI/JwtHelper.cs:50-73 | the only errors are "two reties", an escaping exception and the token itself as message; an identity comes only from an attempt that validated the token |
| JwtHelper.AttemptsExhausted | BI/JwtHelper.cs:61-73 | "two reties" comes exactly when every attempt misses its signing key |
| JwtHelper.FirstAttemptDecides | BI/JwtHelper.cs:68-71 | any other outcome of the first attempt decides at once: a rejected token fails with the token as message, with no retry |
| JwtHelper.ConfigurationManager.GetConfiguration | BI/JwtHelper.cs:37 | returns the fetched keys, caches them and clears the refresh request |
| JwtHelper.ConfigurationManager.RequestRefresh | BI/JwtHelper.cs:66 | the next fetch reads the published keys |
| JwtHelper.JwtHelper.GetId | BI/JwtHelper.cs:25-74 | header errors leave the manager untouched; otherwise the result is that of at most two attempts, both with the parameters built before the loop; a refresh stays requested exactly when the result is "two reties" |
| JwtHelper.RetryRepeatsFirstAttempt | BI/JwtHelper.cs:37-73 | the second attempt repeats the first, so "two reties" comes exactly when the first attempt misses its key |
| JwtHelper.KeyRotation | BI/JwtHelper.cs:37-73 | a token signed with a key published after the cached keys fails as written, and is accepted when the retry uses refreshed keys |
| JwtHelper.JwtHelper.GetIdRefreshing | BI/JwtHelper.cs:37-73 | the corrected loop fetches the configuration before each attempt, so the retry uses the published keys; afterwards the manager caches the published keys when the first attempt missed its key and the keys fetched first otherwise, and a refresh stays requested exactly when the result is "two reties" |

## Left out

- HTTP, the OAuth code exchange (`SolidifyAccess`, `Post`) and the JSON of the token reply: the reply is the parameter `reply`.
- The Azure file clients, deflate and UTF-8 streams: a file `Save` wrote is its text, and any other file is unreadable; compression is taken as lossless.
- Strings.StartsWith: compares character by character; the .NET `StartsWith(string)` of `ToLower().StartsWith("bearer ")` compares under the current culture, which skips ignorable characters such as zero-width ones, because culture data is outside the model.
- Strings.EndsWith: compares character by character; the .NET `EndsWith(".file")` compares under the current culture, for the same reason.
- NameSetJson.Escape: escapes only `"` and `\`; the serialiser also escapes control characters and U+0085, U+2028 and U+2029, which changes the text written for such names but not the set read back.
- NameSetJson.Encode: writes only the escapes of `Escape`, so its text for names holding control characters or U+0085, U+2028 or U+2029 differs from the serialiser's.
- NameSetJson.Decode: accepts only the compact form that serialisation writes (no whitespace, only `\"` and `\\` escapes), because the general JSON reader is a foreign library.
- StorageAccess.EnumerateDirectory: the listing of the account directory also yields the `backup` subdirectory itself; the model lists files only.
- StorageAccess.Share.Rename: the share's other refusals (locks, permissions) are not modelled.
- `GetFiles` and `CreateUploadStream` of the share, which only list or open streams.
- The `google.config` read of `GetAccess` is the parameter `config`, because `GetConfigStorage` calls a three-argument constructor that BI/StorageAccess.cs does not declare.
- GoogleProvider.AccessTokenProvider.GetAccessToken: the clock is read twice by the source and once (`now`) by the model; the `int` overflow of `expires_in - 10` and `DateTime` range errors are not modelled.
- Concurrency: the access cache is a shared `List`; the model is sequential and claims no thread safety.
- Records.ToEpoch: the exact quotient replaces the `double` of `TotalMilliseconds`, whose rounding can differ by a millisecond far from the epoch; `ToUniversalTime` is the identity because only UTC instants are modelled.
- Records.FromEpoch: the `DateTime` range check is not modelled.
- `Downloading` (a `double`) and `Children` of a drive item are not computed by the code modelled.
- A cyclic `Parent` chain cannot be built from values, so `FullName` always terminates in the model.
- JwtHelper.Lower: lowers ASCII letters only; culture-specific lowering is not modelled.
- JwtHelper.ConfigurationManager.RequestRefresh: the library's throttling of refreshes and the automatic refresh interval are not modelled.
- The token handler (signature, issuer, audience and lifetime checks) is the parameter `validate`.
- A null header value or claim text is not modelled.
- `decodeURI` of the code and the navigation after `finishDriveAccess`.
- BI/GoogleAccess.cs and BI/BackupManager.cs are not part of this model: they drive a Drive client library and write to a local file.
- The Angular pages other than the callback, and the host and configuration plumbing.
- Line 84 of `ListFiles` saves the serialised text read (`null` when none), not the rebuilt set; line 100 always overwrites it, so the model keeps it as written.

## Findings

| source | as written | input that shows it | evidently intended | confidence | as-written member | corrected member |
|---|---|---|---|---|---|---|
| BI/JwtHelper.cs:37-73 | the validation parameters are built once before the loop, and the configuration is never fetched again after `RequestRefresh`, so the retry repeats the first attempt | a token signed with a key that the provider published after the manager cached its keys: both attempts miss the key, giving "two reties" | fetch the configuration again before the retry so it sees the refreshed keys | high; not executed | JwtHelper.RetryRepeatsFirstAttempt | JwtHelper.JwtHelper.GetIdRefreshing |
| ClientApp/src/app/callback/callback.component.ts:18-19 | the page acts when `code` occurs anywhere in the address | `/callback?error=access_denied&state=googlecode`, a refused consent carrying the `state=googlecode` that BI/GoogleProvider.cs:97 sets: no pair starts with `code`, so `find` is undefined and the page throws | act only when the query has a `code` pair | medium; not executed | Callback.RefusalFails | Callback.OnInitChecked |
| ClientApp/src/app/callback/callback.component.ts:29 | the pair is chosen by prefix, so `code` matches a longer name | `/callback?codex=1&code=abc` reads `=1` | match the whole name `code=` | low; not executed | Callback.PrefixCollisionExample | Callback.GetValueOfKeyFromUrl |
