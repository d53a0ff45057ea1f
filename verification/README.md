# GoBack2Onedrive retention and sequencing, modelled in Dafny

GoBack2Onedrive is a single Go program that zips a local data folder,
prunes old backups from a OneDrive folder so that at most `MAX_BACKUPS`
remain, uploads the new archive, and removes the local copy. This project
models the parts of it that make decisions:

- **Retention pruning** (`CleanOldBackups`): a listing of remote items is
  sorted oldest first by `lastModifiedDateTime` (RFC 3339, section 5.6 of
  RFC 3339; a parse failure counts as Go's zero time) and the first
  `len - maxBackups` items are deleted, one request each, carrying on past
  failed deletes. Modules `Clock`, `Retention`, `Cleanup`.
- **Upload retry rule** (`UploadFileToOneDrive`): a whole-file PUT re-sent
  until the service answers 200 or 201. Module `Upload`.
- **Settings** in `main`: the destination folder defaults to `"backups"`;
  `MAX_BACKUPS` is read with `strconv.Atoi` and falls back to 5. Module `Config`.
- **Archive entry naming** in `zipFolder`: directories are skipped and a
  file's entry is its path with the first `len(source)` bytes cut off.
  Module `Archive`.
- **Step sequencing** in `main`: compress, prune, upload, remove the local
  archive, each only after the previous one returned nil. Module `Orchestrator`.

Network answers, the filesystem walk and the date-time parser are
parameters: `answer(i)` is the outcome of the i-th delete request, a
sequence of `Response`s stands for the successive upload attempts, a
sequence of `WalkEvent`s for the walk callback's invocations, and
`parse: string -> Option<Instant>` for `time.Parse`. Instants are integers
counted from Go's zero time, so `Before` is `<`. Paths in `Archive` are byte sequences, because
Go strings are and `len` and slicing count bytes. The cap and slice lengths
are Go's 64-bit `int` (module `Int64`). `CleanOldBackups` therefore requires
the cap and the listing's length to lie in that range, as every Go `int` and
slice length does.

The model follows the code as written:

- The code uploads with one whole-file PUT. It has no chunked or ranged
  resumable upload and no upload session.
- A failed listing is returned as an error. The code never creates the
  folder on a 404 and retries nothing.
- The code sorts with `sort.Slice`, which is not stable. Ties between equal
  instants are therefore left unspecified rather than kept in listing order.
  `Retention.SortByTime` is one valid order, and every contract holds of any
  valid order (`Retention.IsTimeOrderOf`).
- A token failure is returned as an error, not retried. Only the upload's
  PUT is retried, and without limit.
- `main` runs once. When compressing, pruning or uploading fails, it returns
  without removing the local archive.

## Model

| member | source | states |
|---|---|---|
| `Clock.ParseOrZero` | GoBack2Onedrive.go:197-198 | The compared instant is the parsed one when the timestamp parses. It is Go's zero time when parsing fails, because the error is discarded. |
| `Clock.UnparsedIsNoLaterThanParsed` | GoBack2Onedrive.go:197-199 | An unparseable timestamp compares no later than any timestamp that parses to an instant at or after the zero time. |
| `Retention.SortByTime` | GoBack2Onedrive.go:196-200 | Sorting only reorders the listing (same multiset of items), and the result is ascending by parsed instant. |
| `Retention.Decide` | GoBack2Onedrive.go:191-203 | A listing within the cap is left whole. Otherwise exactly `len - maxBackups` items are deleted and `maxBackups` are kept. Deleted plus kept items make up the listing. Deletes go in ascending instant order, and no deleted item is newer than a kept one. |
| `Retention.SplitOfSortedOrder` | GoBack2Onedrive.go:196-203 | For any order `sort.Slice` may produce, whatever its tie order: `max(0, len - maxBackups)` deletes, nothing lost, deleted oldest first, every deleted item no newer than every kept item. |
| `Retention.SurvivorsAreNewest` | GoBack2Onedrive.go:196-203 | In any order `sort.Slice` may produce, a listed item strictly newer than some kept item is itself kept, so the kept items are the newest. |
| `Retention.UnparsedDeletedBeforeParsed` | GoBack2Onedrive.go:197-203 | If an item whose timestamp parsed to an instant after zero time is deleted, every item whose timestamp failed to parse is deleted too. |
| `Retention.SortedOrdersAgreeOnTimes` | GoBack2Onedrive.go:196-200 | Any two orders `sort.Slice` may produce have the same instant at every position. So the instants of the deleted items do not depend on how ties are broken. |
| `Retention.SplitAgreesWithDecide` | GoBack2Onedrive.go:196-209 | Splitting any order `sort.Slice` may produce after the surplus deletes items with the same instants, position by position, as `Decide`'s victims. When the listing exceeds the cap, the kept items also have the same instants as `Decide`'s survivors. |
| `Retention.SortKeepsItems` | GoBack2Onedrive.go:196-200 | The sorted listing has the listing's length, and every item in it comes from the listing. |
| `Cleanup.CleanOldBackups` | GoBack2Onedrive.go:185-212 | A listing failure returns the error with no delete attempted. A listing within the cap returns nil with no delete. Otherwise delete i goes to the item at position i of an ascending permutation of the listing. For a non-negative cap, exactly `len - maxBackups` deletes are attempted whatever the service answers, and nil is returned. For any non-negative cap the deleted items have, position by position, the instants of the victims `Retention.Decide` picks. A negative cap deletes every item and then panics on the index past the end, except when `len - maxBackups` overflows the 64-bit `int`: the bound then wraps negative, and nil is returned with no delete. |
| `Int64.Sub` | GoBack2Onedrive.go:202 | Go's 64-bit `int` subtraction: the result is always in range, is congruent to the true difference modulo 2^64, and is the true difference when that fits. |
| `Cleanup.DeleteFirst` | GoBack2Onedrive.go:202-209 | The delete loop makes one delete per position below the bound, in order, whatever each delete returns. A bound of zero or less makes no delete. A bound beyond the listing deletes every item and then panics. |
| `Upload.RetryLoop` | GoBack2Onedrive.go:163-181 | The loop returns exactly when some attempt is answered 200 or 201. It returns at the first such attempt. Transport errors and every other status lead to another attempt. |
| `Upload.RetryLoopAppend` | GoBack2Onedrive.go:163-181 | Once the loop has returned, later outcomes change nothing. While it is still retrying, it returns on further outcomes exactly as a fresh loop would, offset by the attempts already made. |
| `Upload.UploadFileToOneDrive` | GoBack2Onedrive.go:138-182 | An error is returned only by the token, file-read or request-building step before the loop, and it names the first step that failed. Otherwise the result is nil exactly when an attempt was accepted, and the loop itself never returns an error. |
| `Config.DestinationFolder` | GoBack2Onedrive.go:266-269 | The folder is never empty. It is the environment value when that is non-empty, and `"backups"` when the variable is unset or set to the empty text. |
| `Config.Atoi` | GoBack2Onedrive.go:273 | A value that `strconv.Atoi` accepts lies in the 64-bit `int` range. |
| `Config.AtoiOfDecimal` | GoBack2Onedrive.go:273 | Every 64-bit integer written in decimal is read back as itself. |
| `Config.MaxBackupsOfUnset` | GoBack2Onedrive.go:272-276 | An unset or empty `MAX_BACKUPS` does not parse, so the cap is 5. |
| `Config.AtoiOfBareSign` | GoBack2Onedrive.go:273 | A sign with no digits after it does not parse. |
| `Config.AtoiOfSignedDigits` | GoBack2Onedrive.go:273 | An optional `+` or `-` followed by one or more digits parses to the signed value of the digits when it is within the 64-bit range, and fails otherwise. |
| `Config.DigitsValueLeadingZero` | GoBack2Onedrive.go:273 | A leading zero does not change the value of a digit string. |
| `Config.AtoiAcceptsNonCanonical` | GoBack2Onedrive.go:273 | Non-canonical numerals are accepted: `"007"` is 7, `"+5"` is 5, `"-0"` is 0. |
| `Config.AtoiRejectsNonDigit` | GoBack2Onedrive.go:273-276 | A character that is neither a digit nor a leading sign makes the parse fail. |
| `Config.MaxBackups` | GoBack2Onedrive.go:272-276 | The cap is always at least 1. It is the parsed value when that parses and is positive, and 5 otherwise. |
| `Config.MaxBackupsOfDecimal` | GoBack2Onedrive.go:272-276 | A positive 64-bit `MAX_BACKUPS` written in decimal becomes the cap. |
| `Config.MaxBackupsOfNonPositiveOrOutOfRange` | GoBack2Onedrive.go:272-276 | Zero, a negative number, or a number beyond the 64-bit range gives the default cap of 5. |
| `Archive.EntryName` | GoBack2Onedrive.go:234 | Slicing succeeds exactly when the path has at least as many bytes as `source`, and it drops that many bytes. For a path under `source`, the entry name put back after `source` gives the path. |
| `Archive.EntryNameCountsBytes` | GoBack2Onedrive.go:234 | With source `"./data"`, the walked path `"data/é"` is cut after six bytes, leaving only the last byte of the UTF-8 `é`. |
| `Archive.ZipFolder` | GoBack2Onedrive.go:225-250 | The walk ends in nil exactly when there was no walk error and every file was long enough to name and was copied in full. There is never more than one entry per visited file. |
| `Archive.EntriesRestorePaths` | GoBack2Onedrive.go:230-235 | After a clean walk under `source`, the entry names with `source` in front are exactly the walked files, in walk order. Directories get no entry. |
| `Orchestrator.RunMain` | GoBack2Onedrive.go:279-306 | The steps start in order, none skipped or repeated. A step starts exactly when every earlier step returned nil. `main` completes exactly when all steps returned nil. Otherwise it stops at the last started step, in the way that step ended. |
| `Orchestrator.Backup` | GoBack2Onedrive.go:279-306 | The upload runs only when compressing and pruning returned nil. The local archive is removed only after the upload returned nil. An upload that keeps retrying leaves `main` blocked in it. Apart from the `access_token` panic, which is left out (see "## Left out"), only compressing and pruning can end `main` in a panic, each exactly when that step panicked. |
| `Orchestrator.ConfiguredBackup` | GoBack2Onedrive.go:271-306 | Pruning runs only after compressing returned nil, so a failed or crashed compression leaves every remote item untouched. It runs with the cap read from `MAX_BACKUPS`, which is at least 1. So pruning never takes the negative-cap panic, and apart from the left-out `access_token` panic `main` can panic only while compressing. When compressing returned nil and the listing holds more items than the cap, exactly the surplus is attempted. |

## Left out

- HTTP, OAuth and JSON (`GetAccessToken`, `ListBackupsOnOneDrive`, the requests in `DeleteBackupOnOneDrive` and `UploadFileToOneDrive`) are network I/O over library calls. Their outcomes are inputs. A delete counts as done exactly when the answer is 204, and an upload is accepted on 200 or 201 (`Http.DeleteSucceeded`, `Http.UploadAccepted`).
- RFC 3339 parsing is left uninterpreted, as the `parse` parameter.
- Zip writing, `filepath.Walk`, and file reads, creation and removal are filesystem I/O. Their outcomes are inputs; only the skip-directory and entry-name rule is modelled.
- Building the upload URL (`oneDriveFolder + "/" + filepath.Base(filePath)`) and the zip file name from `time.Now` are string formatting around I/O, and are not modelled.
- The 10-second `time.Sleep` between upload attempts and all printing are timing and logging. They are not modelled.
- The upload retry loop has no bound. `Upload.RetryLoop` sees only a finite prefix of the attempts and reports "still retrying" when none of them was accepted.
- Re-sending a request whose body reader was consumed by the first attempt is a transport library behaviour, not logic of the program.
- The `access_token` type assertion in `GetAccessToken` can panic on a malformed reply. It belongs to the OAuth exchange, which is left out.
- Orchestrator.Backup: its panic clauses cover compressing and pruning only. The `access_token` panic, reachable from pruning through the listing and delete requests and from the upload, is not modelled. So a real `main` can also crash in those steps on a malformed token reply.
- Orchestrator.ConfiguredBackup: "never panics in pruning" and "panics only while compressing" hold apart from that same `access_token` panic in pruning and upload, which is not modelled.
- `Config.Atoi` assumes a 64-bit `int`. On a 32-bit platform `strconv.Atoi` would reject values beyond 32 bits.
- Config.Atoi: its own contract states only the result range. Which texts it accepts is stated case by case by lemmas that cover every input. `Config.MaxBackupsOfUnset` covers the empty text and `Config.AtoiOfBareSign` a lone sign. `Config.AtoiOfSignedDigits` covers a sign (or none) followed by digits. `Config.AtoiRejectsNonDigit` covers any other character.
