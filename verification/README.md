# Traffic Cone: a verified model

Traffic Cone keeps TLS and SSH credentials in an encrypted SQLite file and hands them out by process: a
daemon finds the binary behind a PID, looks at its connections and decides which certificate it may use.
This project models that logic in Dafny and proves what it keeps. `dafny verify dfyconfig.toml` checks all
of it.

| Part | Files | Main results |
|---|---|---|
| Store, backup and restore | `Schema`, `Backup`, `RestoreRuns`, `RestoreExact`, `RestoreFailure`, `KeyLoss`, `Rerun`, `BackupRestore`, `RoundTrip`, `Merge`, `Clash` | a restore only adds, row by row; for any payload, the exact condition for it to succeed and what it leaves, also when it fails or is killed; which certificate loses its key, and when running it again helps; backup and restore rebuild the store; merging is set union exactly for stores that agree, in either order |
| Histories | `StoreOps`, `StoreHistory`, `StoreUndo`, `Store`, `Keys`, `PemBundle` | over every history, failures and kills included: the schema's constraints, at most one key per certificate, exactly which certificates have none, no dangling answers; when deletion undoes import |
| Routing | `Routing`, `RouteRule`, `RouteAdded`, `DocumentedRouting`, `CallRouting` | which row answers a request, by its columns; the one-pass resolver refines a sort; what a new route serves; when it is the documented one; what changes an answer; when row order matters |
| Processes | `ProcessMonitor`, `MonitorProtocol`, `Integrity`, `ProcText`, `Text` | the PID cache is invisible in sequence and genuine under every interleaving, and exactly when it goes stale; admission; `/proc` text round trips |
| SSH agent | `SshWire`, `SshAgent` | one framed response per legal message for every byte stream; encoders and decoders invert each other |
| PKCS#11 | `ObjectCursor` | enumeration hands out every handle once, however it is split |

`Wrappers`, `Seqs`, `Tables`, `Sorting` and `Hex` are the shared vocabulary.

## How the program is modelled

- A table is the sequence of its rows in insertion order. Each SQL statement the program issues is a
  function from tables to tables, or to the constraint it violates: primary key, UNIQUE, foreign key, with
  cascading deletes. `INSERT OR IGNORE` forgives a taken key, not a dangling reference. The label column
  is called `name`, and audit rows are modelled without their detail text.
- ORDER BY is a stable sort, so ties come in table order; a query without ORDER BY, and the join in a backup,
  follow the order of the table (of `certs`, for the join). SQLite promises neither, and
  `Routing.OrderIrrelevantIff` says when the answer depends on it.
- A restore is a program of statements, one per row (two for a certificate), run without a transaction. The
  class `Store` holds the code's loops and is proved to leave exactly what that program leaves, wherever it
  stops. The random ids and the clock reading of an operation are parameters (`Draws` for a restore).
- Serialising and encrypting a backup, and undoing both, are taken to be inverse: `CreateBackup` returns the
  payload that `RestoreBackup` takes. Deriving the database key is the function `opens`, encrypting a key
  gives the parameter `KeyMaterial`, signing and UTF-8 are functions in `SshAgent.View`, and a file's hash is
  its entry in a map.
- Numbers are unbounded where the program stores them in 64 bits and only compares or copies them; the 32-bit
  lengths of the SSH protocol, the parsed port, address and start time have their widths.
- In `MonitorProtocol` each lock, `/proc` read and file read of a call is one atomic step, and a cleanup is
  one step per entry. Start times increase at each PID. Exec and file writes are moves of their own, so what
  the cache assumes about them appears in the theorems.

## Where the code and its documentation part

- `ARCHITECTURE.md:382` ranks app+host over app over host; the code has two levels, and a route restricted
  to an app ranks no higher than one restricted to a host (`DocumentedRouting.DocumentedWinnerIff`).
- `ARCHITECTURE.md:376` checks an app's stored hash while routing; the code compares hashes only of the
  program's own binaries.
- `crates/coned/src/process_monitor.rs:27-28` says a cached entry is dropped when the hash no longer matches;
  a hit is never hashed again. Line 167 says a process cannot change its binary; an exec does, without a
  new start time (`MonitorProtocol.ExecMakesEntriesStale`).
- `crates/cone-store/src/export.rs:221-222` says entries with matching fingerprints are skipped; a route to
  such a certificate aborts the restore if the target knows it under another id
  (`Clash.KnownUnderAnotherId`). SSH keys are matched by id, apps by path, routes by id.
- `crates/cone-store/src/integrity.rs:28` reads as if a new record replaced the old one of its path; it never
  does (`Integrity.RecordingRepairsNothing`).
- The comment at `crates/coned/src/routing.rs:94-95` expects the last lookup to serve processes whose
  connections had no route; it can only succeed for a process without connections (`CallRouting.ResolveForPid`).
- The SSH agent finds the key by its blob and then its secret by its label, which is not unique
  (`SshAgent.SignerIsRequestedIff`).
- Deletion is by label too, and takes the oldest certificate of that label (`StoreUndo.DeleteUndoesImportIff`).
- A backup joins certificates with their keys, so one that has lost its key is missing from it while its routes
  are not (`RoundTrip.BackupRestorableIff`).
- The address pattern is a text prefix, sound only for some networks (`ProcText.PatternSoundIff`), and an IPv6
  address is read in the wrong byte order (`ProcText.Ipv6RoundTripIff`).

## Model

| member | source | states |
|---|---|---|
| `RestoreRuns.RestoreOnlyAdds` | crates/cone-store/src/export.rs:243-385 | After any number of the statements of any restore, of any payload into any store, every earlier row is present, unchanged and in place, and the integrity table is the same. |
| `RestoreRuns.RunKeepsSchema` | crates/cone-store/src/db.rs:59-150 | Any sequence of restore statements, failing or not, keeps primary keys and UNIQUE columns distinct and every foreign key resolved. |
| `RestoreRuns.RestoreKeepsOneKeyAtMost` | crates/cone-store/src/export.rs:264-301 | After any number of the statements of any restore no certificate has two key rows, whatever ids are drawn. |
| `KeyLoss.RestoreKeyless` | crates/cone-store/src/export.rs:264-301 | After the first n statements of a restore of any payload with any ids into any store the schema allows, the certificates without a key are those that had none before and the one the inputs say is lost: all before it go in with their keys, its row goes in, and it is the n-th statement or the id drawn for its key is taken. |
| `KeyLoss.WholeRestoreKeyless` | crates/cone-store/src/export.rs:264-301 | A restore that is not cut short, failing or not, loses a key only to a taken id, so with new ids it leaves exactly the certificates without a key that had none before. |
| `KeyLoss.CutRestoreLosesKey` | crates/cone-store/src/export.rs:274-287 | Any decodable certificate restored into an empty store and killed after the first statement is left without its key. |
| `KeyLoss.TakenIdLosesKey` | crates/cone-store/src/export.rs:285-297 | Any certificate restored beside another, when the other's key id is drawn again, is left without its key. |
| `Rerun.RerunCompletesIff` | crates/cone-store/src/export.rs:243-385 | A restore that would succeed is killed after any number of its insertions and run again with new ids: it succeeds with the tables of an uninterrupted one, but for key ids and the log, if and only if the kill did not fall between a certificate and its key. Otherwise the fingerprint check skips that certificate and it stays without the key the backup holds. |
| `RestoreRuns.RestoreTwice` | crates/cone-store/src/export.rs:228-387 | For every target and payload whose restore succeeds, restoring the payload again, with whatever ids, changes nothing but the audit log, and succeeds if and only if the audit id drawn is new. |
| `RestoreExact.RestoreSucceedsIff` | crates/cone-store/src/export.rs:228-387 | A restore of any payload with any drawn ids succeeds if and only if the target admits it, said row by row of the inputs: every new certificate decodes and meets no taken or repeated id, its key's id is free, every new CA certificate and app meets no taken or repeated id, and what every new route refers to is there or comes with a new row. Then exactly the new rows, first of their key, are appended in order, and the counters are their numbers, except that every route counts. |
| `RestoreFailure.CutExact` | crates/cone-store/src/export.rs:243-372 | After any number of statements that does not part a certificate from its key: no error if and only if the part of the payload they carry is admitted, and then exactly its new rows are in, with their counters. |
| `RestoreFailure.RestoreFailsExactly` | crates/cone-store/src/export.rs:243-385 | Every failing restore stops at the first statement whose part of the payload is not admitted, or at the log entry if its id is taken; its error is a constraint, a dangling reference for a route, or bad data for a certificate that does not decode; and it leaves exactly the new rows of the part before, and before a failing key its certificate, too. |
| `RestoreExact.RoutePhase` | crates/cone-store/src/export.rs:350-361 | The route statements succeed or stop as inserting the rows one by one does; ignored rows are counted as well. |
| `RestoreExact.CertPhase` | crates/cone-store/src/export.rs:264-301 | The certificate loop over any list succeeds if and only if each new certificate decodes and its id and its key's id are unused by the target and the earlier new ones; then it adds exactly the new certificates and one key row for each. |
| `BackupRestore.BackupRestoresIff` | crates/cone-store/src/export.rs:228-387 | For the backup of one store, whose rows are distinct, and new key ids: success if and only if no new row meets an id the target gave to another row and every new route's certificate and app arrive. |
| `RoundTrip.CollectedRows` | crates/cone-store/src/export.rs:405-531 | Unpacking what a backup carries gives the certificate and SSH key tables back exactly, in order, and the CA table without its system files; every certificate's bytes decode. |
| `RoundTrip.CollectedEntries` | crates/cone-store/src/export.rs:405-531 | What a backup holds, column by column: an entry for each certificate and key of it, binary columns in hexadecimal, SSH keys and CA certificates in table order, apps and routes as they are. |
| `RoundTrip.JoinCertsKeyed` | crates/cone-store/src/export.rs:409-415 | The inner join of a backup lists exactly the certificates that have a key, in table order. |
| `RoundTrip.CollectIsCoherent` | crates/cone-store/src/export.rs:405-531 | The backup of every store with the schema's constraints and at most one key per certificate has distinct rows and SSH routes that refer to SSH keys it carries. |
| `RoundTrip.BackupRestorableIff` | crates/cone-store/src/export.rs:409-415 | Such a backup can be restored into an empty store if and only if every routed certificate of the original still has its key: the join drops a certificate without one, but not its routes. |
| `RoundTrip.RestoreRebuilds` | crates/cone-store/src/export.rs:228-387 | For every well-formed store with one key per certificate, restoring its backup into an empty store succeeds, rebuilds all six tables row for row and in order (keys under new ids, CA certificates without system files), leaves one audit entry, and reports the table sizes. |
| `RoundTrip.RestoreKeepsRouting` | crates/cone-store/src/list.rs:273-377 | On the rebuilt store every request, for every binary, host and address, gets the answer it got on the original. |
| `RoundTrip.RestoreKeepsBackup` | crates/cone-store/src/export.rs:405-531 | Backing up the rebuilt store yields the same payload again. |
| `RoundTrip.RestoreKeepsPlainKeys` | crates/cone-store/src/list.rs:98-121 | On the rebuilt store every certificate's key decrypts, under the same passphrase, to what it was, with the same algorithm or the same error. |
| `Merge.RestoreIsUnionIff` | crates/cone-store/src/export.rs:219-222 | Restoring the backup of one well-formed store into another, with new ids, succeeds and leaves exactly the union of what they held if and only if they hold the same row wherever they share a primary key or UNIQUE value. |
| `Merge.MergeOrderIrrelevant` | crates/cone-store/src/export.rs:228-387 | Backups of two such stores restored into a third succeed in either order and leave the same contents, the union of all three. |
| `Clash.KnownUnderAnotherId` | crates/cone-store/src/export.rs:265-271 | A restore always stops with an error if a new route of the backup names a certificate whose fingerprint the target holds under another id. |
| `Clash.IndependentImportsClash` | crates/cone-store/src/export.rs:219-222 | For every certificate imported on two machines under two ids and routed on the second: restoring the second's backup on the first fails, though matching entries are documented as skipped. |
| `Hex.DecodeEncode` | crates/cone-store/src/export.rs:421-430 | Every binary column comes back from its hexadecimal text. |
| `Hex.EncodedText` | crates/cone-store/src/export.rs:421-430 | Each byte is two digits of 0123456789abcdef, the high one first. |
| `Tables.PutAllExact` | crates/cone-store/src/export.rs:331-348 | Any rows go in one by one if and only if each new one is acceptable and meets no id of the table or of an earlier new row; then exactly the new ones are appended, in order. |
| `StoreHistory.HistoryKeepsSchema` | crates/cone-store/src/db.rs:59-150 | From the empty store, every sequence of imports, deletions, app and route insertions, route removals, restores of any payload, log entries and integrity updates, each complete, failing, or killed after any of its statements, keeps all keys distinct and all references resolved. |
| `StoreHistory.HistoryKeepsOneKeyAtMost` | crates/cone-store/src/db.rs:73-80 | Over all these histories no certificate ever has two key rows. |
| `StoreHistory.ApplyKeyless` | crates/cone-store/src/db.rs:73-80 | Each operation, complete, failing or killed, on every store the schema allows: the certificates without a key afterwards are those that had none and are not deleted, and those the operation loses by a condition on its inputs, an import or restore that meets a taken key id or is killed between a certificate and its key. |
| `StoreHistory.HistoryKeyless` | crates/cone-store/src/db.rs:73-80 | After every history the certificates without a key are exactly those lost and not deleted since. |
| `StoreHistory.HistoryKeysIff` | crates/cone-store/src/db.rs:73-80 | So every certificate has exactly one key row if and only if none is still lost. |
| `StoreHistory.NoDanglingAnswer` | crates/cone-store/src/list.rs:71-91 | After every history, a certificate id that routing returns is found by id. |
| `StoreHistory.AnswerHasKeyIff` | crates/cone-store/src/list.rs:98-121 | And it has a key row if and only if it is not one still lost. |
| `StoreHistory.HistoryBackupRestorableIff` | crates/cone-store/src/export.rs:196-217 | After every history, the backup can be restored into an empty store if and only if no route names a certificate still lost. |
| `StoreHistory.KilledImportSpoilsBackup` | crates/cone-store/src/import.rs:288-316 | Any certificate whose import is killed before its key, and any route to it: the backup taken then cannot be restored. |
| `StoreHistory.ResolvedCertExists` | crates/cone-store/src/list.rs:309-377 | In any store with resolved references the routed certificate can be looked up. |
| `StoreHistory.DeleteAnswers` | crates/cone-store/src/list.rs:124-129 | After a certificate is deleted no request is answered with it, and every answer that named another certificate, or none, stands. |
| `StoreUndo.ImportedIsFound` | crates/cone-store/src/import.rs:288-322 | An import succeeds if and only if all four unique values are free; then the certificate is found by id, its key by the certificate, and by label exactly when no older certificate has that label. |
| `StoreUndo.ImportedRows` | crates/cone-store/src/import.rs:288-322 | A successful import appends the certificate, one key row with its id, owner, algorithm name and encrypted columns, and one log entry, and changes nothing else. |
| `StoreUndo.ImportedKeyIsRetrieved` | crates/cone-store/src/list.rs:98-121 | If decryption undoes encryption, the key of an imported certificate is retrieved with its algorithm. |
| `StoreUndo.DeleteUndoesImportIff` | crates/cone-store/src/list.rs:124-143 | Deleting by label a certificate just imported restores every table but the log if and only if no older certificate has the label. |
| `StoreUndo.DeleteTakesOlder` | crates/cone-store/src/list.rs:125-129 | If one has, the older certificate goes, with its key and routes, and the one just imported stays. |
| `StoreOps.DeleteExactly` | crates/cone-store/src/list.rs:124-143 | The first certificate of the label goes, with exactly the keys and routes that name it, and a log entry is added if its id is new; an unknown label changes nothing. |
| `StoreUndo.RemoveUndoesAdd` | crates/cone-cli/src/main.rs:541-548 | Removing a route just added gives the store back if and only if no older route's id matches the new one. |
| `StoreUndo.AddedRouteAnswers` | crates/cone-cli/src/main.rs:492-537 | Adding a route changes an answer only to the certificate named in the command. |
| `RouteAdded.AddRouteExactly` | crates/cone-cli/src/main.rs:492-537 | The command succeeds if and only if its certificate and app labels are known and the id is new. Then exactly one row goes in: id, mode, priority and time as given, pattern the host, else the address, match type 'ip' only for an address without a host, certificate and app the first stored under their labels. Otherwise nothing changes. |
| `RouteAdded.AddedRouteServes` | crates/cone-cli/src/main.rs:514-518 | A route added above all others answers exactly the requests whose binary and remote end it names, both or either as the command asks; every other request keeps its answer. |
| `RouteAdded.RemoteOnlyRouteServes` | crates/cone-cli/src/main.rs:514-518 | Added without an app and with both required, the row may answer a request if and only if its host is the one given, or its address if only an address was given, or always if neither was. |
| `RouteAdded.AddAppExactly` | crates/cone-cli/src/main.rs:435-447 | An app is added, alone and at the end, if and only if its id and its path are new; requests from its path are then matched as it. |
| `StoreOps.RemovesByPrefix` | crates/cone-cli/src/main.rs:543-546 | For every argument without '%', removal takes exactly the routes whose id begins with it, letters in either case and '_' standing for any character. |
| `StoreOps.BeginsLikeIsPrefix` | crates/cone-cli/src/main.rs:543-546 | For lower-case hexadecimal arguments and ids, as the store draws them, that is the plain prefix. |
| `StoreOps.PercentRemovesAll` | crates/cone-cli/src/main.rs:543-546 | The argument '%' removes every route. |
| `StoreOps.RemovesPrefixIff` | crates/cone-cli/src/main.rs:543-546 | Removal takes exactly the ids that begin with the argument, whatever ids there are, if and only if the argument holds no '%', no '_' and no ASCII letter. |
| `Store.Store.constructor` | crates/cone-store/src/db.rs:35-57 | A new file has empty tables, an existing one its own; the store starts locked. |
| `Store.Store.Unlock` | crates/cone-store/src/store.rs:44-58 | The right passphrase opens a session; a wrong one leaves the session that was there. |
| `Store.Store.Lock` | crates/cone-store/src/store.rs:61-63 | Ends the session; the tables stay. |
| `Store.Store.StoreCertAndKey` | crates/cone-store/src/import.rs:269-322 | Locked: an error and no change. Unlocked: tables and error are those of the three inserts in order, stopping at the first that fails. |
| `Store.Store.RemoveCert` | crates/cone-store/src/list.rs:124-143 | While unlocked, the same of the method: what goes, what stays, the log entry and the error. |
| `Keys.AlgorithmRoundTrip` | crates/cone-store/src/list.rs:447-457 | The algorithm name an import stores, spelled out, is read back as the algorithm. |
| `Store.Store.KeyOf` | crates/cone-store/src/list.rs:104-113 | Succeeds if and only if some key row belongs to the certificate, and returns one that does. |
| `Store.Store.PlaintextKey` | crates/cone-store/src/list.rs:98-121 | Locked, no key row, a failed decryption and an unknown algorithm name are told apart; otherwise the first key row of the certificate is decrypted from its three columns under the session's passphrase, with the algorithm its name says. |
| `Store.Store.ResolveRoute` | crates/cone-store/src/list.rs:309-377 | The best-so-far loop over the listed routes returns the certificate of the one row that answers the request by the row's own columns: it meets the rule (both restrictions if it requires both, else either), and every other row that does has lower priority, or meets only one restriction where it meets both, or is younger, or comes later. None exactly if no row meets the rule; locked is an error. |
| `Store.Store.CreateBackup` | crates/cone-store/src/export.rs:196-217 | Returns the collected tables and logs it; fails only if locked or the log id is taken, and changes no other table. |
| `Store.Store.RestoreCas` | crates/cone-store/src/export.rs:243-262 | The loop leaves the tables, counters and error of running its statements in order; the first failure ends it. |
| `Store.Store.RestoreCert` | crates/cone-store/src/export.rs:264-301 | One certificate: skipped by fingerprint, or decoded and inserted with its key; a failing key row leaves its certificate behind. |
| `Store.Store.RestoreCerts` | crates/cone-store/src/export.rs:264-301 | The same for the loop over all certificates. |
| `Store.Store.RestoreSshKeys` | crates/cone-store/src/export.rs:303-326 | The same for SSH keys, skipped by id; this loop never fails. |
| `Store.Store.RestoreApps` | crates/cone-store/src/export.rs:328-347 | The same for apps, skipped by path. |
| `Store.Store.RestoreRoutes` | crates/cone-store/src/export.rs:349-361 | The same for routes: a taken id is ignored and counted, a dangling reference is an error. |
| `Store.Store.RestoreSshRoutes` | crates/cone-store/src/export.rs:363-372 | The same for SSH routes. |
| `Store.Store.RestoreBackup` | crates/cone-store/src/export.rs:228-387 | The whole restore, on success and on every failure, leaves the tables of the statement-by-statement run and returns its counters or its error; on success one log entry is added; while locked nothing happens. |
| `Store.Store.RecordBinary` | crates/cone-store/src/integrity.rs:21-34 | Afterwards the records are those with another id and the new one, with the file's present hash; nothing else changes, and an unreadable file changes nothing. |
| `Store.Store.VerifyAll` | crates/cone-store/src/integrity.rs:40-53 | Passes if and only if every recorded file is readable and has its recorded hash; then every record keeps its columns but for the time of verification, which is now, and nothing else changes. |
| `PemBundle.PickCertAndKey` | crates/cone-store/src/import.rs:187-209 | The loop picks the first block tagged CERTIFICATE and the last tagged as a key (plain, encrypted, EC or RSA), whatever stands between; a missing certificate is reported before a missing key. |
| `Routing.ScanFindsWinner` | crates/cone-store/src/list.rs:323-376 | The one pass over routes listed by priority and age, replacing the best only when beaten, finds the head of the eligible routes sorted by priority descending, specificity descending, age, ties in table order. |
| `Routing.FirstUnbeatenExtends` | crates/cone-store/src/list.rs:363-373 | One more route changes the scan's result as one turn of the loop does. |
| `Routing.WinnerIsTop` | crates/cone-store/src/list.rs:309-377 | There is no answer exactly if no route is eligible; otherwise the winner is eligible and no eligible route ranks ahead of it. |
| `RouteRule.ResolveMeans` | crates/cone-store/src/list.rs:309-377 | The same of every table with unique app paths: no answer exactly if no row meets the rule, otherwise the certificate of the row that answers, and only one row does. |
| `RouteRule.LoneRoute` | crates/cone-store/src/list.rs:323-352 | A single row answers exactly if app and remote end both fit, or one of them where the row does not require both: the app is absent or the one registered at the caller's path; the remote end is unrestricted, the host, the address, or for a network pattern an address that begins with the pattern less its '.0/24' endings. |
| `Routing.LoserIsIrrelevant` | crates/cone-store/src/list.rs:323-376 | Removing a route that did not win, from anywhere in the table, leaves the answer. |
| `Routing.NewRouteWinsOrNothingChanges` | crates/cone-store/src/list.rs:323-376 | An added route becomes the winner exactly if it is eligible and the old winner does not rank before it; else nothing changes. |
| `DocumentedRouting.DocumentedWinnerIff` | crates/cone-store/src/list.rs:356-369 | The route that the documented ranking, app and host before app before host, puts first is the computed winner if and only if no route is eligible, or among the eligible ones of highest priority one matches app and host, or none matches an app, or the oldest matches one. |
| `DocumentedRouting.AppRouteLosesToHostRoute` | crates/cone-store/src/list.rs:356-361 | An app's route and an older one for the host, of equal priority: the documented ranking puts the app's first, the code answers with the host's. |
| `Routing.LosingCertIsIrrelevant` | crates/cone-store/src/list.rs:128-129 | Removing every route of a certificate that is not the answer leaves the winner. |
| `Routing.OrderIrrelevantIff` | crates/cone-store/src/list.rs:278 | The answer is the same for every row order if and only if the eligible routes tied for first all name one certificate. |
| `Routing.DistinctAgesFixTheAnswer` | crates/cone-store/src/list.rs:278 | With distinct (priority, creation time) pairs the winner does not depend on row order. |
| `Routing.AppAtAnyOrder` | crates/cone-store/src/list.rs:318-321 | The app found at a path is the same in every listing order, since paths are unique. |
| `Routing.AnswerOrderIff` | crates/cone-store/src/list.rs:309-321 | An answer of the store is the same for every order of its route and app rows if and only if the eligible routes tied for first all name one certificate. |
| `Routing.NoAddressIsHardest` | crates/coned/src/routing.rs:94-96 | If a request without an address gets an answer, the same request with any address gets one. |
| `Sorting.StableSortCorrect` | crates/cone-store/src/list.rs:278 | The ORDER BY of the model is an ordered permutation of the table. |
| `Sorting.StableSortKeepsTies` | crates/cone-store/src/list.rs:278 | Rows that tie keep table order. |
| `Sorting.TextBeforeIff` | crates/cone-store/src/list.rs:23-26 | The order by label: the first text begins the second, or has the smaller character where they first differ. |
| `CallRouting.FindRoute` | crates/coned/src/routing.rs:64-116 | With connections, the answer is the certificate for the first address that has one, reported with that address, and there is no route if none has; without connections, the certificate for no address; a locked store is an error. |
| `CallRouting.OneRouteFor` | crates/coned/src/routing.rs:70-105 | That condition settles the answer. |
| `CallRouting.ResolveForPid` | crates/coned/src/routing.rs:44-116 | A dead process, a binary of the program's own without its recorded hash, a locked store and an unrouted process are told apart in that order; otherwise the first served connection of the two tables, IPv4 before IPv6, decides. The process's entry is cached in every case but the first, and a faithful cache stays so. |
| `CallRouting.NoRouteIff` | crates/coned/src/routing.rs:67-105 | No route is found if and only if no route is eligible for any connection and none without an address. |
| `CallRouting.VerifyClient` | crates/coned/src/routing.rs:124-173 | Wrong user, dead process, unregistered binary and changed binary are each reported exactly on their condition; otherwise the entry is accepted. The cache afterwards holds exactly what was resolved besides what it held, so asking again in the same world gives the same answer, and a faithful cache stays so; another user's call does not touch it. |
| `CallRouting.AdmissionIff` | crates/coned/src/routing.rs:145-192 | After a passed startup check a client is admitted if and only if it resolves to a recorded binary with the hash of the check; with a faithful cache, if and only if its binary's bytes are still those of the check. |
| `CallRouting.AdmittedClientIsGenuine` | crates/coned/src/routing.rs:145-173 | Under every interleaving, an admitted client that still runs has executed a recorded binary, and that file has had the bytes of the check in the client's lifetime. |
| `Integrity.VerifyRecords` | crates/cone-store/src/integrity.rs:40-67 | Passes if and only if all records are genuine; otherwise the error is that of the first one that is not, unreadable or modified. |
| `Integrity.VerifiedHashesAreActual` | crates/coned/src/routing.rs:179-192 | After a passed check the admission map holds exactly the recorded paths, each with the hash its file has. |
| `Integrity.KnownHashesOrderIff` | crates/coned/src/routing.rs:187-190 | The map is the same for every record order if and only if all records of one path agree. |
| `Integrity.RecordingRepairsNothing` | crates/cone-store/src/integrity.rs:21-34 | After recording a binary the check passes if and only if the new record and every record with another id are genuine; so under a new id recording does not turn a failing check into a passing one. |
| `Integrity.UpgradeStaysBroken` | crates/cone-store/src/integrity.rs:21-34 | A store in which an upgraded binary is recorded again as it is now, and the check still fails. |
| `ProcessMonitor.Monitor.Resolve` | crates/coned/src/process_monitor.rs:48-78 | In a faithful cache the answer is that of reading everything anew, and the cache stays faithful; in any cache it is the matching entry or a fresh read, which is then cached. |
| `ProcessMonitor.Monitor.VerifyHash` | crates/coned/src/process_monitor.rs:84-97 | Answers as a resolve does if the hash is the expected one, and caches the same; in a faithful cache that is the fresh read. |
| `ProcessMonitor.Monitor.Invalidate` | crates/coned/src/process_monitor.rs:122-124 | Removes the one entry, so that the next call for the PID is a fresh read. |
| `ProcessMonitor.Monitor.CleanupStale` | crates/coned/src/process_monitor.rs:127-136 | A PID stays cached if and only if its entry's start time is the live process's; what stays is unchanged, no later answer changes, and a faithful cache stays faithful. |
| `ProcessMonitor.CacheIsInvisible` | crates/coned/src/process_monitor.rs:48-78 | Over every run of process starts and exits, calls, invalidations and cleanups, the answers are those of uncached reads. |
| `ProcessMonitor.MaintenanceIsInvisible` | crates/coned/src/process_monitor.rs:122-136 | An invalidation or cleanup inserted anywhere in a run changes no answer. |
| `MonitorProtocol.PlayKeepsInv` | crates/coned/src/process_monitor.rs:48-78 | Every interleaving of the steps of any number of calls with maintenance, process starts, exits and execs, and file writes and removals keeps the cache invariant. |
| `MonitorProtocol.CachedEntriesAreGenuine` | crates/coned/src/process_monitor.rs:48-78 | In every interleaving, an entry whose start time is that of the live process names a binary this process has executed, with a hash that file has had since the process started, even if the PID was reused between the reads. |
| `MonitorProtocol.AnswersAreGenuine` | crates/coned/src/process_monitor.rs:48-78 | The same of every answer a call has returned. |
| `MonitorProtocol.CachedEntriesAreExact` | crates/coned/src/process_monitor.rs:48-78 | If the process has kept its binary, and the file its bytes, since the process started, such an entry is exactly the live process's path, hash and start time. |
| `MonitorProtocol.StaysExactIff` | crates/coned/src/process_monitor.rs:52-61 | A move that leaves an exact entry matching leaves it exact if and only if it is none of these: an exec of another binary, a write of other bytes to its file, its removal, the insertion of something else read for the PID. |
| `MonitorProtocol.ExactThroughoutIff` | crates/coned/src/process_monitor.rs:52-61 | Over every run that keeps a matching entry, an exact one is exact all the way if and only if no move of the run is of that kind. |
| `MonitorProtocol.UninterruptedCall` | crates/coned/src/process_monitor.rs:48-78 | The steps of one call, taken without interruption, give the answer and the cache of the sequential monitor, and change nothing else. |
| `MonitorProtocol.ReusedPidMixesReads` | crates/coned/src/process_monitor.rs:49-75 | A run in which a call returns and caches the new process's binary under the old process's start time; the entry matches no live process. |
| `MonitorProtocol.ExecMakesEntriesStale` | crates/coned/src/process_monitor.rs:163-168 | A run in which, after an exec, the cached entry still matches the start time but names a binary the process no longer runs. |
| `ProcText.Ipv4RoundTrip` | crates/coned/src/process_monitor.rs:261-294 | Every IPv4 address and port comes back from the kernel's little-endian hexadecimal form as its dotted quad. |
| `ProcText.LoopbackRead` | crates/coned/src/process_monitor.rs:261-294 | The text 0100007F:1F90 is read as 127.0.0.1 and 8080. |
| `ProcText.Ipv6Reversed` | crates/coned/src/process_monitor.rs:265-282 | Every IPv6 address and port comes back with the bytes of each four-byte word in reverse. |
| `ProcText.Ipv6RoundTripIff` | crates/coned/src/process_monitor.rs:265-282 | So the address read is the one printed if and only if each of its words reads the same in both byte orders. |
| `ProcText.LoopbackMisread` | crates/coned/src/process_monitor.rs:265-282 | The address ::1 is read as another one. |
| `ProcText.ReadTcp` | crates/coned/src/process_monitor.rs:213-255 | The loop returns what the established lines after the header contribute, in order, for either table; an unreadable table counts as empty. |
| `ProcText.GetConnections` | crates/coned/src/process_monitor.rs:104-118 | The IPv4 table's connections, then the IPv6 table's. |
| `ProcText.TableRoundTrip` | crates/coned/src/process_monitor.rs:224-252 | Reading a printed socket table, IPv4 or IPv6, gives exactly its established remote ends, in order, IPv6 addresses with the bytes of each word reversed. |
| `ProcText.StatRoundTrip` | crates/coned/src/process_monitor.rs:187-206 | For every process name, spaces and parentheses included, and all later fields without ')', the parsed start time is the printed field 22. |
| `ProcText.CidrMatchesIff` | crates/cone-store/src/list.rs:340-344 | An address matches the pattern a.b.c.0/24 if and only if its first two numbers are a and b and the text of its third begins with that of c. |
| `ProcText.OwnNetworkMatches` | crates/cone-store/src/list.rs:340-344 | Every parsed address is matched by the pattern of its own /24 network. |
| `ProcText.PatternSoundIff` | crates/cone-store/src/list.rs:340-344 | The pattern matches no address outside its network if and only if c is 0 or above 25. |
| `Text.ParseDec` | crates/coned/src/process_monitor.rs:203-205 | Every number up to the maximum is read back from its decimal text. |
| `Text.WordsOfJoin` | crates/coned/src/process_monitor.rs:199 | Words joined by spaces are split back into themselves, also before a line end. |
| `Text.LinesOfUnlines` | crates/coned/src/process_monitor.rs:224 | Lines written out are read back as the same lines. |
| `SshWire.U32RoundTrip` | crates/coned/src/ssh_agent.rs:299-319 | The four bytes of a number read back as the number modulo 2^32. |
| `SshWire.U32BigEndian` | crates/coned/src/ssh_agent.rs:299-319 | The four bytes are the number's, most significant first. |
| `SshWire.TakeStringRoundTrip` | crates/coned/src/ssh_agent.rs:298-313 | A length-prefixed string within the limit reads back, with whatever follows it left over. |
| `SshWire.SignRoundTrip` | crates/coned/src/ssh_agent.rs:166-171 | Every sign request that fits one message reads back unchanged. |
| `SshWire.InnerLimitIsIdle` | crates/coned/src/ssh_agent.rs:305-309 | Inside a message of legal length the string length check never rejects what would otherwise parse. |
| `SshWire.IdentitiesRoundTrip` | crates/coned/src/ssh_agent.rs:139-160 | A client that decodes the identities answer gets exactly the listed (key, label) pairs, in order, with the right count, all sizes below 2^32. |
| `SshWire.SignatureRoundTrip` | crates/coned/src/ssh_agent.rs:201-208 | A client that decodes the sign response gets the signature's type and bytes. |
| `SshWire.Cursor.ReadExact` | crates/coned/src/ssh_agent.rs:305-319 | Takes the next n bytes, or nothing. |
| `SshWire.Cursor.ReadString` | crates/coned/src/ssh_agent.rs:305-313 | Agrees with reading a string from the front of what is left, and advances past it. |
| `SshWire.Buffer.WriteString` | crates/coned/src/ssh_agent.rs:298-302 | Appends the length-prefixed string. |
| `SshWire.ReadSignRequest` | crates/coned/src/ssh_agent.rs:166-171 | The three cursor reads give the parsed request, or nothing. |
| `SshWire.WriteSignResponse` | crates/coned/src/ssh_agent.rs:201-208 | Writes the response that the signature round trip is about. |
| `SshWire.WriteIdentities` | crates/coned/src/ssh_agent.rs:139-157 | The loop writes the answer that the identities round trip is about. |
| `SshAgent.MessagesCover` | crates/coned/src/ssh_agent.rs:79-103 | Every byte stream is its legal messages, framed, followed by a rest that starts with none, and each message takes at least five bytes. |
| `SshAgent.MessagesRoundTrip` | crates/coned/src/ssh_agent.rs:79-103 | Any legal messages, framed and followed by any rest that starts with none, are read back exactly. |
| `SshAgent.Connection.ReadMessage` | crates/coned/src/ssh_agent.rs:84-99 | Reads the next message of 1 to 262144 bytes after its four-byte length, or none for a closed, truncated, zero-length or over-long one. |
| `SshAgent.Connection.Answer` | crates/coned/src/ssh_agent.rs:105-124 | The response to one message by its type: 11 asks for the identities, 13 for a signature, every other is answered with the one byte 5. |
| `SshAgent.Connection.HandleMessage` | crates/coned/src/ssh_agent.rs:79-133 | True exactly if a legal message was there; then exactly one framed response to it is appended. |
| `SshAgent.Connection.Serve` | crates/coned/src/ssh_agent.rs:57-66 | For every input stream the loop ends having written exactly one framed response for each legal message, in order, and nothing else. |
| `SshAgent.ClientReadsResponses` | crates/coned/src/ssh_agent.rs:126-130 | A client that reads the output as frames gets exactly those responses, one per message, with nothing left over. |
| `SshAgent.KeyWithBlobFinds` | crates/coned/src/ssh_agent.rs:177-187 | The key found has the requested blob; none is found exactly if no key has it. |
| `SshAgent.ListingIsRead` | crates/coned/src/ssh_agent.rs:139-160 | What a client decodes from the listing: every stored key once, in label order, its public key's text as the blob and its label as the comment; nothing while the store is locked. |
| `SshAgent.ListingOfOne` | crates/coned/src/ssh_agent.rs:139-160 | The listing of a single key, byte for byte. |
| `SshAgent.RequestIsSigned` | crates/coned/src/ssh_agent.rs:166-208 | From the bytes of a request to what the client decodes: if a key stands for the blob, the response carries that key's signature of the request's data, byte for byte, or is the one byte 5 if signing fails. |
| `SshAgent.SignerIsRequestedIff` | crates/coned/src/ssh_agent.rs:166-208 | A well-formed request is answered with the signature of its data by a stored key, spelled out in bytes, if and only if some key has its blob; and that key has the blob if and only if there is a key with the blob whose label no earlier key has and no key with the blob undercuts: the key is looked for in label order, its secret in table order. |
| `SshAgent.UnknownKeyFails` | crates/coned/src/ssh_agent.rs:166-187 | A malformed request, a locked store, or a blob no key has is answered with failure. |
| `SshAgent.NamesakeSigns` | crates/coned/src/ssh_agent.rs:189-199 | With two keys under one label, the response to a request for the second carries the first's signature of the data. |
| `SshAgent.WrongKeySigns` | crates/coned/src/ssh_agent.rs:189-199 | The same at two concrete keys, from the bytes of the request. |
| `SshAgent.CopyMisleadsSigner` | crates/coned/src/ssh_agent.rs:177-190 | Three keys, the first and the third the same, the second and the third under one label: a request for the first is signed with the second, though the first is stored first and alone has its label. |
| `SshAgent.ListedKeyNamed` | crates/cone-store/src/list.rs:150-190 | Listing keys in label order does not change which key a label stands for. |
| `ObjectCursor.EnumerationIsExact` | crates/cone-p11/src/pkcs11_impl.rs:402-415 | Any calls with any maxima together hand out 0, 1, 2, ... without gap or repeat, as many as the maxima allow up to two per certificate. |
| `ObjectCursor.SplitIsInvisible` | crates/cone-p11/src/pkcs11_impl.rs:402-415 | How a total is split over calls does not change what is handed out. |
| `ObjectCursor.HandlesAreAccepted` | crates/cone-p11/src/pkcs11_impl.rs:421-435 | After a full enumeration a handle was handed out if and only if it is accepted, and each certificate has exactly two. |
| `ObjectCursor.Token.Initialize` | crates/cone-p11/src/pkcs11_impl.rs:245-254 | Lists the certificates, none if the daemon cannot be asked, and leaves the cursor where it was. |
| `ObjectCursor.Token.FindObjectsInit` | crates/cone-p11/src/pkcs11_impl.rs:393-399 | Relists the certificates, none if the daemon cannot be asked, and rewinds the cursor. |
| `ObjectCursor.Token.FindObjects` | crates/cone-p11/src/pkcs11_impl.rs:402-415 | Writes the next handles below the maximum and nothing else, advances the cursor by as many and returns 0; a null argument changes nothing and returns 7. |
| `ObjectCursor.FindAll` | crates/cone-p11/src/pkcs11_impl.rs:402-415 | A caller that asks again and again, with a buffer of each size, is handed exactly the enumeration. |
| `ObjectCursor.Token.GetAttributeValue` | crates/cone-p11/src/pkcs11_impl.rs:421-426 | Returns 0 exactly for the handles below twice the number of listed certificates, 0x82 for the others. |
| `ObjectCursor.Token.SignInit` | crates/cone-p11/src/pkcs11_impl.rs:429-435 | The same answers, and the last accepted handle is remembered. |
| `ObjectCursor.Token.Finalize` | crates/cone-p11/src/pkcs11_impl.rs:257-264 | Afterwards no handle is accepted; the signing handle stays. |

## Left out

- Argon2id, AES-GCM, SHA-256, age, X.509, PKCS#12 and PEM parsing, and the signature schemes: library calls.
- The SQLite engine beyond the constraints of the statements issued; deletion of apps and SSH keys, for
  which no command exists, and with it ON DELETE SET NULL; NOT NULL and column types.
- The salt file and the moment of migration: a store's tables exist from its construction.
- Two processes writing the database at once: there is one connection.
- Sockets, peer credentials, memory locking, prompts, printing, and failures to write a response.
- Big-endian hosts, and connection tables that are not ASCII. A process's two tables are read at one moment.
- `export_pfx`, the JSON messages between daemon and clients, and the client library's own caching.
- `C_Sign` and the PKCS#11 calls that answer with constants; poisoned locks.
- The SSH signer's choice of scheme: keys are listed as Ed25519 only, so signing is one function of key and data.
- Features that are documented but not written: session authentication codes, a signed manifest, app hashes in
  routing, full network patterns, host name lookup, SSH routing.
- BackupRestore.BackupRestoresIff: for distinct rows and new key ids; `RestoreExact.RestoreSucceedsIff` has neither.
- StoreOps.RemovesByPrefix: an argument with '%' inside is matched as SQL's LIKE does, with no simpler condition.
- Detecting a key's algorithm from its encoding: an import is given the algorithm.
- ProcText.StatRoundTrip: the fields after the name hold no ')', as the kernel prints them.
- Integrity.VerifyRecords: all files are read at one moment.
- ProcessMonitor.Monitor.Resolve: one call at a time, and the exact answers assume that binaries and their bytes
  stay; `MonitorProtocol` drops both assumptions, and `UninterruptedCall` ties the two.
