# yang-browser backend: NSP session and intent-type catalogue, in Dafny

This project is a verified model of two pieces of logic in the Go backend of
yang-browser, a web tool for browsing YANG repositories and the intent-type
catalogue of an NSP network-management server.

- **The intent-type catalogue client** (`backend/nsp-intents.go`).
  - The `name_version` key under which each intent type is listed.
  - The paginated intent-type search. Each page's keys are followed by the
    keys of the next page. The next page is requested only when the server
    reports the requested page size and a larger total count.
  - The lookup of an intent type's YANG modules. It splits the key at its
    last underscore, then reads the reply.
- **The session handling and file-name logic of the HTTP handlers**
  (`backend/mux.go`).
  - The plain-text replies (`writeResponse`, `raiseError`).
  - The connect, disconnect and is-connected handlers, on the server's shared
    `nsp` record.
  - The token refresh routine, as a sequential state machine over a lock
    flag.
  - Which zip entries the upload extracts and under which names.
  - What the `list` handler reports for the local uploads folder and for the
    NSP catalogue.

Every call the code makes to the outside world is a parameter of the model:

- the HTTP exchange with NSP is a server function from the request to its
  reply;
- `getToken` and `revokeToken` are outcomes supplied by the caller;
- reading a directory is a function from a path to its entries or an error;
- a zip archive is the sequence of its entry names.

Files:

| file | contents |
|---|---|
| `Wrappers.dfy` | `Option`, `Result`, `Outcome` |
| `GoStrings.dfy` | `strings.LastIndex`, `HasSuffix`, `TrimSuffix`, `ToLower` and the `%d` verb |
| `FilePath.dfy` | `filepath.Base` and `filepath.Ext` with `/` as separator |
| `Sequences.dfy` | order-preserving map and filter-map over sequences, with their lemmas |
| `Responses.dfy` | `writeResponse`, `raiseError` |
| `NspIntents.dfy` | key codec, `intentTypeSearch`, `intentTypeYangModules` |
| `Session.dfy` | `nspConnect`, `nspDisconnect`, `nspIsConnected`, `tokenRefreshRoutine` (class `Server`) |
| `YangFiles.dfy` | the file-name logic of `extractYangFolder` and `list` |

The search is specified by the function `NspIntents.Search`, over an abstract
page server. The code has no page cap and no bound of any kind. The `fuel`
argument of `Search` is therefore a *hypothesis*, `StopsWithin`: the server
stops asking for more within that many pages. It is not a behaviour.
`SearchIgnoresFuel` shows that any sufficient bound gives the same result.
`EndlessWhenServerAlwaysContinues` shows that a server that always asks for
more admits no bound at all. The method `NspIntents.IntentTypeSearch` follows
the Go code step by step: reply checks, a formatting loop, then recursion. It
is proved equal to `Search`.

The refresh routine works the same way. `Session.Refresh` specifies a whole
run. Its input is the sequence of renewal outcomes the collaborators return,
and its output is the history of lock, sleep, revoke and get-token steps. The
class `Session.Server` holds the fields the handlers update in place:

- the address, user and password;
- the token and its lifetime;
- a lock flag;
- a counter of refresh routines started.

Its method `TokenRefreshRoutine` runs the loop and is proved to produce
`Refresh`'s history and final token.

The model follows the code where a safer design would differ:

- Nothing guards against a second refresh routine: each successful connect
  starts one more (`ConnectTwice`).
- The search has no maximum page count.
- `nspDisconnect`'s own lines change no field of the record, even after a
  successful revoke. What `revokeToken` itself does to the record is not part
  of this model.

## Model

| member | source | states |
|---|---|---|
| GoStrings.LastIndex | backend/nsp-intents.go:93 | the index of the last occurrence of the character, and -1 exactly when it does not occur |
| GoStrings.TrimSuffix | backend/mux.go:122 | the suffix is removed when present; otherwise the string is returned unchanged |
| GoStrings.LowerChar | backend/mux.go:231 | an upper-case ASCII letter becomes the letter 32 code points on, every other character is kept, and no result is an upper-case ASCII letter |
| GoStrings.LowerCharIs | backend/mux.go:231 | a lower-case letter comes from itself or from its upper-case form, and from no other character |
| GoStrings.ToLower | backend/mux.go:231 | same length, with each character lowered as LowerChar states |
| GoStrings.NatDigits | backend/nsp-intents.go:76 | the decimal digits of a natural number: never empty, only digits, and no leading zero unless the number is zero |
| GoStrings.NatDigitsValue | backend/nsp-intents.go:76 | the digits of a natural number denote that number |
| GoStrings.Decimal | backend/nsp-intents.go:76 | the `%d` form: never empty, digits after an optional leading minus sign, and never holds `_` |
| GoStrings.DecimalValue | backend/nsp-intents.go:76 | for v >= 0, `%d` gives digits denoting v with no leading zero; for v < 0, a minus sign then digits denoting -v with no leading zero |
| GoStrings.DecimalInjective | backend/nsp-intents.go:76 | different ints have different `%d` forms |
| FilePath.Base | backend/mux.go:133 | the base name is never empty and holds no separator unless it is "/"; the empty path gives "." |
| FilePath.Ext | backend/mux.go:122 | the extension is a suffix of the path holding no separator; a non-empty one starts at the last dot |
| Responses.WriteResponse | backend/mux.go:40-49 | "success" gives 200 with msg; "error" with a non-empty msg gives 500 with msg and a newline; every other combination gives 500 "unknown error" |
| Responses.RaiseError | backend/mux.go:74-81 | always 500; the body is `msg / err` when there is an error and `msg` alone otherwise |
| NspIntents.Message | backend/nsp-intents.go:60-118 | every error text of both operations starts with "[Error] " |
| NspIntents.Receive | backend/nsp-intents.go:59-72 | a reply is accepted iff it is HTTP 200 with a decodable body; a transport error comes first, then a non-200 status, checked before any decoding |
| NspIntents.IntentKey | backend/nsp-intents.go:76 | the key `name + "_" + %d(version)`; its properties are KeyRoundTrip and IntentKeyInjective |
| NspIntents.IntentKeyInjective | backend/nsp-intents.go:76 | two intent types with the same key have the same name and the same version |
| NspIntents.SplitKey | backend/nsp-intents.go:93-99 | fails with InvalidFormat iff the key has no `_`; otherwise name + "_" + version is the key and the version holds no `_` |
| NspIntents.KeyRoundTrip | backend/nsp-intents.go:93-99 | splitting `name_version` gives back exactly (name, decimal(version)), even when the name holds underscores |
| NspIntents.SplitKeyExamples | backend/nsp-intents.go:98-99 | the version part is not checked: "foo_" gives ("foo", ""), "a_b" gives ("a", "b"), "foo_bar_2" gives ("foo_bar", "2"), and "noversion" is rejected |
| NspIntents.IntentTypeYangModules | backend/nsp-intents.go:92-121 | a key without `_` is rejected before any request; otherwise the reply to the request for the split (name, version) is read |
| NspIntents.ModulesOfListedKey | backend/nsp-intents.go:98-103 | looking up a key the search listed asks the server for exactly that name and version |
| NspIntents.PageKeysInOrder | backend/nsp-intents.go:74-77 | one key per intent type on the page, `name + "_" + decimal(version)`, in server order |
| NspIntents.PageKeysAppend | backend/nsp-intents.go:85 | the keys of two consecutive runs of items are the keys of the first run followed by those of the second |
| NspIntents.MoreAfter | backend/nsp-intents.go:80 | the continuation test: the reported page size equals the requested one and the total count exceeds it; properties in PagesRequestedUpToFirstStop and EndlessWhenServerAlwaysContinues |
| NspIntents.Search | backend/nsp-intents.go:45-89 | the result of `intentTypeSearch`; its properties are SearchSuccess, SearchFailure and DatasetSearchReturnsEveryKey, and IntentTypeSearch is proved equal to it |
| NspIntents.PagesRequested | backend/nsp-intents.go:80-81 | the number of requests the search makes; PagesRequestedUpToFirstStop proves it at least one and within the bound, ending at the first page that does not ask for more |
| NspIntents.PagesRequestedUpToFirstStop | backend/nsp-intents.go:80-81 | the requests are for consecutive page numbers with the same page size; every page but the last asks for more, and the last does not |
| NspIntents.SearchIgnoresFuel | backend/nsp-intents.go:80-86 | the result and the number of requests do not depend on the termination bound |
| NspIntents.EndlessWhenServerAlwaysContinues | backend/nsp-intents.go:80 | a server that always reports the requested page size and a larger total is never done with; page number and keys fetched play no part |
| NspIntents.SearchSuccess | backend/nsp-intents.go:74-86 | the search succeeds iff every requested page arrives, and then returns the keys of those pages in page order |
| NspIntents.SearchFailure | backend/nsp-intents.go:82-84 | the first page that does not arrive gives its error, wrapped once per earlier page, and no keys at all |
| NspIntents.SearchLastPage | backend/nsp-intents.go:80-88 | a page that does not ask for more ends the search with its own keys |
| NspIntents.SearchNextPage | backend/nsp-intents.go:80-85 | a page that asks for more puts its keys before the rest of the search |
| NspIntents.DatasetSearchFrom | backend/nsp-intents.go:74-86 | on such a server, the search from page q ends and returns the keys of the items from that page on |
| NspIntents.DatasetSearchReturnsEveryKey | backend/nsp-intents.go:74-86 | on such a server, the search from page 0 returns every item's key once, in list order, whatever the page size |
| NspIntents.IntentTypeSearch | backend/nsp-intents.go:45-89 | the Go procedure (checks, formatting loop, recursive call) returns exactly what Search specifies |
| Session.Refresh | backend/mux.go:328-355 | a whole run of `tokenRefreshRoutine`; its properties are RefreshBracketed, RefreshReleasesLock, RefreshReacquiresAfterRevoke, RefreshFailureIsLast and RefreshExit, and TokenRefreshRoutine is proved to follow it |
| Session.RefreshBracketed | backend/mux.go:328-355 | every run starts by taking the lock and ends by releasing it; a run stopped for a zero lifetime leaves a zero lifetime |
| Session.RoundKeepsLockDiscipline | backend/mux.go:330-353 | one round takes the lock only when free, calls revoke and getToken only under it, sleeps without it, and ends with it free |
| Session.RefreshReleasesLock | backend/mux.go:341-353 | the whole routine keeps that lock discipline and ends with the lock free on every exit path |
| Session.RefreshLastRound | backend/mux.go:334-351 | a round that does not renew is the last: a zero lifetime stops the routine without revoking, and a failed revoke or getToken stops it with the token unchanged |
| Session.RefreshNextRound | backend/mux.go:352-354 | a round that renews is followed by the run from the new token and lifetime |
| Session.RenewingRound | backend/mux.go:338-353 | a renewing round is read under the lock, sleeps for lifetime - 10, then revokes and gets a token under the lock, with no failure |
| Session.RoundCallOrder | backend/mux.go:341-351 | within a round, getToken comes right after a successful revoke, and a failed call is the last step but one |
| Session.RefreshReacquiresAfterRevoke | backend/mux.go:342-347 | over the whole routine, every getToken comes right after a successful revoke |
| Session.RefreshFailureIsLast | backend/mux.go:342-351 | over the whole routine, a failed revoke or getToken is followed only by the release of the lock |
| Session.RefreshExit | backend/mux.go:334-351 | the routine stops without revoking iff it last read a zero lifetime; it stops for a failed revoke or a failed getToken iff that is its last call |
| Session.Server.constructor | backend/mux.go:374-377 | a new server has an empty record, no token, a zero lifetime, the lock free and no routine started |
| Session.Server.Connect | backend/mux.go:306-325 | every field the decoder assigned overwrites the record, even when decoding then fails; a decode error is refused; empty credentials are refused with no getToken; a refused token is reported; success stores the token and starts exactly one refresh routine |
| Session.Server.Disconnect | backend/mux.go:358-370 | an empty address is refused with "NSP is not connected" and no revoke; otherwise revoke is called and its outcome reported |
| Session.Server.IsConnected | backend/mux.go:373-396 | connected iff the token is non-empty; the export holds the address and user only |
| Session.Server.ReadExpiresIn | backend/mux.go:330-332 | the lifetime is read between taking and releasing the lock |
| Session.Server.Renew | backend/mux.go:341-353 | revoke then getToken under the lock, released on all three exits; the token is replaced only when both succeed |
| Session.Server.RefreshRound | backend/mux.go:330-353 | one loop iteration appends one round to the history and says whether the loop goes on |
| Session.Server.TokenRefreshRoutine | backend/mux.go:328-355 | the loop produces the history and final token of Refresh, and leaves the lock free |
| Session.ConnectThenStatus | backend/mux.go:317-324 | a fresh server that connects with full credentials answers "NSP connected" and reports that address and user |
| Session.ConnectWithoutPassword | backend/mux.go:312-315 | a connect without a password answers "NSP credentials are missing", stays not connected and starts no routine |
| Session.ConnectTwice | backend/mux.go:317-322 | two successful connects leave two refresh routines started |
| Session.RejectedReconnectKeepsToken | backend/mux.go:307-315 | a reconnect that clears the address is refused but keeps the cleared address and the old token: status reports connected while disconnect reports not connected |
| Session.PartlyDecodedConnectSetsAddress | backend/mux.go:307-310 | a connect refused for a badly typed value still sets the address it carries, so the server reports not connected while disconnect goes on to revoke |
| Session.DisconnectNeverConnected | backend/mux.go:359-362 | a server that never connected refuses to disconnect, whatever the revoke would answer |
| YangFiles.BaseOfJoined | backend/mux.go:133 | the base name of a folder path followed by a plain name is that name |
| YangFiles.ExtOfSuffix | backend/mux.go:122 | `filepath.Ext` gives back any extension (a dot, then no dot or separator) the path ends with |
| YangFiles.RepoFolder | backend/mux.go:122 | the extraction folder, the base name without its extension; properties in RepoFolderOfArchive and RepoFolderStripsExtension |
| YangFiles.RepoFolderOfArchive | backend/mux.go:122 | the repo folder followed by the extension is the archive's base name, and the folder holds no separator |
| YangFiles.RepoFolderStripsExtension | backend/mux.go:122 | an archive `dir/stem.ext` is extracted into the folder `stem`, even when the stem holds dots |
| YangFiles.Extracts | backend/mux.go:131 | the extraction test, a case-sensitive ".yang" suffix; compared with the listing test in ExtractedIsListed and ListedNotExtracted |
| YangFiles.TargetOf | backend/mux.go:131-133 | the file an entry is written to, its base name, if the entry is extracted |
| YangFiles.Targets | backend/mux.go:129-133 | the files extraction writes, in archive order; characterised by TargetsExactly |
| YangFiles.ExtractedBase | backend/mux.go:131-133 | an extracted entry's base name still ends in ".yang" and holds no separator |
| YangFiles.TargetsExactly | backend/mux.go:129-133 | a file is written iff some entry ends in ".yang" with that base name; every file written is a plain ".yang" name |
| YangFiles.FlatteningCollides | backend/mux.go:133-135 | two entries with the same ".yang" name in different folders are both written, to the same file |
| YangFiles.ExtractYangFolder | backend/mux.go:114-155 | the folder is the base name without extension, the targets are exactly Targets, and the count is their number |
| YangFiles.Lists | backend/mux.go:231 | the listing test, the lower-cased extension equals ".yang"; characterised by ListsExactly |
| YangFiles.ListsExactly | backend/mux.go:231 | a name is listed iff its extension is ".yang" in any mix of upper and lower case |
| YangFiles.ExtractedIsListed | backend/mux.go:231 | every name extraction accepts, the listing accepts too |
| YangFiles.ListedNotExtracted | backend/mux.go:231 | the converse fails: "m.YANG" is listed but not extracted |
| YangFiles.RepoFiles | backend/mux.go:217-221 | the files of one repository folder, in order; characterised by RepoFilesExactly |
| YangFiles.TopLevelYang | backend/mux.go:226-235 | the top-level ".yang" files, in order; characterised by TopLevelYangExactly |
| YangFiles.Repos | backend/mux.go:206-224 | the repository elements of the local listing; characterised by ReposExactly |
| YangFiles.LocalListing | backend/mux.go:199-236 | the "local" answer: a refusal when the uploads folder or a repository folder cannot be read, otherwise Repos then an element named "" with TopLevelYang |
| YangFiles.CatalogueListing | backend/mux.go:238-249 | the "nsp" answer: a refusal carrying the search error's message, otherwise KeyEntries of the search result |
| YangFiles.ListOf | backend/mux.go:199-253 | the answer of `list` for each kind; List is proved equal to it |
| YangFiles.KeyEntries | backend/mux.go:245-249 | one element per catalogue key; characterised by KeyEntriesInOrder |
| YangFiles.RepoFilesExactly | backend/mux.go:217-221 | a repository folder lists exactly its entries that are not folders |
| YangFiles.TopLevelYangExactly | backend/mux.go:226-235 | the top level lists exactly the files whose extension is ".yang" in any case |
| YangFiles.ReposExactly | backend/mux.go:206-224 | the local listing fails iff some folder cannot be read; otherwise it has one element per folder, in order, holding that folder's files |
| YangFiles.ReposFailureSticks | backend/mux.go:209-213 | once a folder read fails, later entries do not change the outcome |
| YangFiles.KeyEntriesInOrder | backend/mux.go:245-249 | the catalogue listing names each key once, in order, with no files |
| YangFiles.List | backend/mux.go:189-262 | "local" lists the repositories and then the top-level files; "nsp" lists the search from page 0 with pages of 300; any other kind is refused with "unsupported kind" |
| YangFiles.ListLocal | backend/mux.go:199-236 | the loop over the uploads folder gives LocalListing, including both read failures |
| YangFiles.CollectRepoFiles | backend/mux.go:217-221 | the loop over a repository folder gives RepoFiles |
| YangFiles.CollectTopLevelYang | backend/mux.go:228-235 | the loop over the top-level entries gives TopLevelYang |
| YangFiles.ListCatalogue | backend/mux.go:238-249 | a search error is refused with its message; otherwise one element per key |
| YangFiles.CollectKeyEntries | backend/mux.go:245-249 | the loop over the keys gives KeyEntries |

## Left out

- HTTP plumbing: headers, CORS, `logMiddleware`, `mux.Vars`, request parsing and `writeJsonResponse`. A reply is a status and a body.
- Logging (`s.logger`) and the log lines of the refresh routine, which change no state.
- JSON encoding and decoding. A decoded reply is a datatype, and a reply body either decodes or does not. A connect request is the set of fields the decoder assigned plus the error it reported, so which fields a given body assigns is not modelled.
- The `json.Marshal` error branch of the search payload ("generating intent type search payload"). The payload is two ints and cannot fail to marshal.
- The `json.MarshalIndent` error branches ("JSON creation failed"). The encoded types cannot fail to marshal.
- The JSON form of listings: `omitempty` on `files`, and `null` for an empty catalogue.
- `url.QueryEscape` on the name in the module request. The server is asked with the raw name.
- `makeHTTPRequest`, the request URLs and the payload. The server function stands for them.
- `getToken` and `revokeToken`, which are not part of this model. Their outcomes are inputs. A successful `getToken` is taken to store the new token and lifetime, and a failed one and `revokeToken` are taken to change no modelled field.
- `fetchModules`, `fetchYangDefinition` and `getNspModules`, which are not part of this model.
- Goroutines, real time and real locking. The refresh routine runs sequentially to its end with no handler in between. A sleep is a step of its history.
- Concurrency between handlers: races on the `nsp` record between the refresh routine and the connect or disconnect handlers.
- Session.Server.TokenRefreshRoutine: runs only under `RefreshEnds`, the hypothesis that the supplied renewals outlast the routine. The source's routine can run for ever.
- NspIntents.Search: defined only under `StopsWithin`, the hypothesis that the server stops asking for more within `fuel` pages. A server that never stops makes the Go code recurse without end, which the model does not run.
- The filesystem: zip reading, `saveFile`, `MkdirAll`, `OpenFile`, `io.Copy`, `os.Remove`, `RemoveAll` and `Stat`, and their error branches. `ExtractYangFolder` returns what extraction writes, not the I/O.
- `filepath.Join` and `Clean` on the destination path. The model names the folder and the base name of each file.
- The `upload`, `uploadFile`, `delete`, `deleteFile` and `connectionOk` handlers, which only move files and write fixed replies.
- Unicode case folding. `ToLower` lowers ASCII letters only.
- Volume names in paths. `Base` and `Ext` assume `/` as the only separator.
