# Verification of the runtime core

A model in Dafny of the parts of the application whose correctness is hardest to see, with proofs. `dafny verify dfyconfig.toml` checks all of it.

- **Execution queues.** `SceneRunner`, `DocumentQueue` and `PreviewQueue` model the three queues in front of the child processes as transition systems over any number of concurrent calls. One region under a lock is one step, every atomic access outside a lock is a step of its own, and the threads asleep on the condition variable are a set. The regions themselves are methods of a controller class with the original's fields; the transition systems are built from the same functions the methods are proved against. Results are about all runs: one owner of the slot, order of activation, finality of closing, cancellations that are not lost, no cancellation without a cause, nobody left asleep, and for the document queue refinement of a plain first-in first-out queue.
- **Runtime archive.** `TarReader` is the ustar preflight, `TarWriter` an independent writer of the Interchange Format of the pax utility (IEEE Std 1003.1) with the proof that the reader inverts it, and `TarFormat` the format that is accepted, on the bytes alone; `ArchiveManifest` and `ArchiveExtract` are the manifest table, the alias chains and the order of extraction, `ArchiveLinks` follows the links part by part in the extracted tree (`ArchiveDetour` is an accepted archive where that leads nowhere), and `ArchiveInput` joins the bytes the preflight accepts to the tree that is extracted.
- **Payload closure.** `ModuleSearch` is the search over module imports with the scan that finds them in a module's text, `ImportMeaning` what an import as written names, `PayloadTree` the directory walk, the manifest and its inventory, `MemberPaths` the grammar of member paths, and `PayloadGraph` the import graph of an authentic payload.
- **Canonical JSON.** `JsonText` is the text of `JSON.stringify` (string escapes of section 7 of RFC 8259, and lone surrogates escaped), `JsonReader` a reader written from the grammar of RFC 8259 that reads every text back, `JsonLayout` the layout of the indented form, `JsonCanonical` the two canonical forms and what a packet's digest covers. Objects rebuilt from sorted entries list array-index keys first; the theorems hold with such keys too.
- **Twin validators.** `Regex` gives regular expressions a meaning, `Identifiers` compares the browser's expressions with the host's byte loops, `ReviewValidators` the two validators of a design review, and `DigestTwins` the texts the two sides hash, up to whole review packets with their digest.
- **Scene session.** `SceneEdits`, `PacketWindow` and `SceneSession` are the session's operations on its fields, `EditLaws` what each edit changes and when it is accepted; `SessionRuns` is about whole runs, with compilation as a step of the surroundings that replaces the evidence of an open session; a method takes any steps on the class itself and returns the run they make.
- **Wire formats.** `Base64` is the canonical base64 check (sections 3.5 and 4 of RFC 4648, forgiving decoding as browsers do it), `Framing` the newline framer, `Coordinator` the bounded request history.
- `Alphabets`, `Bytes`, `Lists`, `Options`, `Sorting`, `Tickets`, `Trimming` and `Utf8` are shared.

Five things the proofs show about the code as it is:

- At the largest epoch a bump is refused. A close can then return true and a request that had read that epoch still activate, and a cancellation can be lost. Both guarantees hold exactly below the largest epoch (`SceneRunner.CloseIsFinalExactly`, `SceneRunner.CancellationIsSeenExactly`).
- The preview queue has no epoch. A cancellation surely stops a request whose child has not started exactly when its first region finds the request's token installed or its second finds the ticket not activated; two runs show how it is lost otherwise (`PreviewQueue.CancellationStopsExactly`).
- The archive preflight demands zeros in bytes 386 to 482 of a header, which the ustar prefix field covers, so exactly prefixes of at most 41 bytes are read (`TarWriter.PreflightInvertsWriter`).
- An alias target is normalized on its text. An accepted link such as `x/../f` names a file that an operating system does not reach when `x` is not a directory; what is reached through an alias is always the canonical file, and it is reached exactly when each link of the chain turns (at `.`, `..` or an empty part) only in directories (`ArchiveLinks.LinksReachCanonical`, `ArchiveDetour.DetourIsAccepted`).
- Taken alone, the binding of tokens accepts an eight-byte colour whatever its first six bytes are (`SceneSession.ColourIsHexExactly`). The application's own caller cuts its colours to six digits first (src-tauri/src/state/scene_tokens.rs:60-62), so this concerns `bind_tokens` and not what the application does with it.

## Model

| member | source | states |
|---|---|---|
| SceneRunner.ExecutionController.MarkUnavailable | src-tauri/src/scene/runner.rs:219-219 | closing stores the unavailable flag and nothing else |
| SceneRunner.ExecutionController.Bump | src-tauri/src/scene/runner.rs:242-249 | the epoch goes up by one, or at the largest value stays and the answer is false |
| SceneRunner.ExecutionController.Enter | src-tauri/src/scene/runner.rs:279-308 | draws the next ticket, publishes it as pending and gives the verdict of the first wait test; at the last ticket it refuses and publishes nothing |
| SceneRunner.ExecutionController.Attempt | src-tauri/src/scene/runner.rs:292-308 | superseded, asleep, stale or active, with exactly the state change each verdict makes |
| SceneRunner.ExecutionController.Install | src-tauri/src/scene/runner.rs:310-318 | the caller's token replaces whatever token was installed |
| SceneRunner.ExecutionController.Uninstall | src-tauri/src/scene/runner.rs:325-330 | only the caller's own token is removed |
| SceneRunner.ExecutionController.Release | src-tauri/src/scene/runner.rs:332-335 | the slot becomes idle |
| SceneRunner.ExecutionController.ClearPending | src-tauri/src/scene/runner.rs:255-258 | the pending ticket is forgotten |
| SceneRunner.StepKeepsInv | src-tauri/src/scene/runner.rs:218-335 | every atomic step of any number of calls keeps the queue invariant |
| SceneRunner.RunIsLater | src-tauri/src/scene/runner.rs:261-345 | along a run the epoch and the ticket counter never go back, and no request or call forgets what it read |
| SceneRunner.SlotIsExclusive | src-tauri/src/scene/runner.rs:303-335 | at most one request owns the slot, and an installed token belongs to it |
| SceneRunner.ActivationsIncrease | src-tauri/src/scene/runner.rs:284-308 | tickets activate in strictly increasing order, and the pending ticket is none or the newest |
| SceneRunner.TakingIsRecorded | src-tauri/src/scene/runner.rs:303-308 | the tickets that the results speak of as activated are those of the requests that take the slot, when they take it |
| SceneRunner.StepActivatesNewest | src-tauri/src/scene/runner.rs:292-308 | one step activates at most one ticket, and only the newest drawn |
| SceneRunner.SupersededNeverActivates | src-tauri/src/scene/runner.rs:292-308 | a drawn ticket that is no longer pending and has not run never runs, whether a newer one or a cancellation overtook it |
| SceneRunner.ClearedNeverActivates | src-tauri/src/scene/runner.rs:255-258 | a request without the slot when a cancellation clears the pending ticket never runs |
| SceneRunner.NeverStuck | src-tauri/src/scene/runner.rs:292-335 | every unfinished request can step, or sleeps as the only sleeper with its own ticket pending behind a slot owner that can step |
| SceneRunner.CloseIsFinal | src-tauri/src/scene/runner.rs:218-239 | once a close whose bump was accepted has returned true, the slot is idle and nothing activates for the rest of the run |
| SceneRunner.NoLostCancellation | src-tauri/src/scene/runner.rs:241-259 | a cancellation that bumped after the request read the epoch, and finished its token step, has set the token of that request once it is past its second comparison |
| SceneRunner.CancelledNeverSpawns | src-tauri/src/scene/runner.rs:320-354 | such a cancellation, over before the child starts, keeps it from ever starting |
| SceneRunner.UnavailableExactly | src-tauri/src/scene/runner.rs:218-249 | the runner is unavailable if and only if a close, a refused bump or an unreaped child came before, and then admits nothing |
| SceneRunner.OutcomeIsExact | src-tauri/src/scene/runner.rs:261-345 | over all runs a call returns its child's own result, a cancellation or a refusal if and only if one of its own steps made it so |
| SceneRunner.CancelledHasCause | src-tauri/src/scene/runner.rs:241-345 | no request is cancelled spuriously: a newer ticket, a cleared pending ticket, a bump after it read the epoch, or a store through its token came before |
| SceneRunner.UnmarkedIsAnswered | src-tauri/src/scene/runner.rs:320-345 | a request whose child started ends with the child's own result unless its token is set |
| SceneRunner.RefusedBumpIsLost | src-tauri/src/scene/runner.rs:218-259 | a concrete run at the largest epoch: close returns true, and a request then activates with its token clear |
| SceneRunner.CloseIsFinalExactly | src-tauri/src/scene/runner.rs:218-249 | close is final in all runs if and only if the epoch it bumps is not the largest |
| SceneRunner.CancellationIsSeenExactly | src-tauri/src/scene/runner.rs:241-259 | no cancellation is lost in any run if and only if the epoch it bumps is not the largest |
| DocumentQueue.DocumentController.Draw | src-tauri/src/app_theme/runner.rs:354-360 | hands out the next ticket |
| DocumentQueue.DocumentController.Attempt | src-tauri/src/app_theme/runner.rs:362-385 | cancelled, asleep, dropped at the front or active, with exactly the state change each verdict makes |
| DocumentQueue.DocumentController.CancelDocuments | src-tauri/src/app_theme/runner.rs:231-242 | every ticket drawn so far is cancelled, and an idle queue moves its front past them |
| DocumentQueue.DocumentController.Leave | src-tauri/src/app_theme/runner.rs:392-402 | the slot is released and the front moves past the served ticket and all cancelled ones |
| DocumentQueue.StepKeepsInv | src-tauri/src/app_theme/runner.rs:231-402 | every atomic step of any number of calls keeps the queue invariant |
| DocumentQueue.SlotIsExclusive | src-tauri/src/app_theme/runner.rs:362-402 | at most one request is active, it holds the serving ticket, its token is installed, and the token is set exactly when its ticket was cancelled |
| DocumentQueue.PostLoopDropIsUnreachable | src-tauri/src/app_theme/runner.rs:373-380 | an idle queue never serves a cancelled ticket, so the test after the wait loop cannot succeed |
| DocumentQueue.ActivationIsInOrder | src-tauri/src/app_theme/runner.rs:362-385 | when a ticket activates, every smaller ticket is over or waits cancelled |
| DocumentQueue.ActivationsIncrease | src-tauri/src/app_theme/runner.rs:362-402 | activations are strictly increasing and the record only grows |
| DocumentQueue.TakingIsRecorded | src-tauri/src/app_theme/runner.rs:382-385 | the tickets that the results speak of as activated are those of the requests that take the slot, when they take it |
| DocumentQueue.CancelledNeverActivates | src-tauri/src/app_theme/runner.rs:231-242 | a ticket below the cancellation mark that has not run never runs |
| DocumentQueue.CancelledNeverSpawns | src-tauri/src/app_theme/runner.rs:407-415 | a request waiting or about to start its child when a cancellation comes never starts it and ends cancelled |
| DocumentQueue.OutcomeIsExact | src-tauri/src/app_theme/runner.rs:342-420 | over all runs a call returns its child's own result or a cancellation if and only if one of its own steps made it so |
| DocumentQueue.CancelledHasCause | src-tauri/src/app_theme/runner.rs:342-420 | no request is cancelled spuriously: a cancellation came after it had drawn its ticket |
| DocumentQueue.UnmarkedIsAnswered | src-tauri/src/app_theme/runner.rs:342-420 | a request whose child started ends with the child's own result unless its token is set |
| DocumentQueue.NeverStalls | src-tauri/src/app_theme/runner.rs:362-402 | with a free slot and an uncancelled waiter, the holder of the serving ticket exists, is awake, and its next step activates it |
| DocumentQueue.NoTicketIsLost | src-tauri/src/app_theme/runner.rs:392-402 | with no live request the slot is idle and the serving ticket equals the next ticket |
| DocumentQueue.NeverStuck | src-tauri/src/app_theme/runner.rs:362-402 | every unfinished request can step, or sleeps uncancelled behind a holder of the serving ticket that can |
| DocumentQueue.StepRefinesFifo | src-tauri/src/app_theme/runner.rs:231-402 | every step does to a plain first-in first-out queue what that queue's own operation does |
| DocumentQueue.RunRefinesFifo | src-tauri/src/app_theme/runner.rs:231-402 | every run is a run of the plain queue, from the empty one |
| PreviewQueue.PreviewController.Enter | src-tauri/src/app_theme/runner.rs:292-315 | draws the next ticket, publishes it as pending and gives the verdict of the first wait test |
| PreviewQueue.PreviewController.Attempt | src-tauri/src/app_theme/runner.rs:302-315 | superseded, asleep or active, with exactly the state change each verdict makes |
| PreviewQueue.PreviewController.Uninstall | src-tauri/src/app_theme/runner.rs:329-334 | only the caller's own token is removed |
| PreviewQueue.PreviewController.Install | src-tauri/src/app_theme/runner.rs:317-325 | the caller's token replaces whatever token was installed |
| PreviewQueue.PreviewController.Release | src-tauri/src/app_theme/runner.rs:335-338 | the slot becomes idle |
| PreviewQueue.PreviewController.ClearPending | src-tauri/src/app_theme/runner.rs:225-228 | the pending ticket is forgotten |
| PreviewQueue.SlotIsExclusive | src-tauri/src/app_theme/runner.rs:302-338 | one owner of the slot; an installed token belongs to it; a sleeper is alone, holds the newest ticket, and the slot is active |
| PreviewQueue.NewestWins | src-tauri/src/app_theme/runner.rs:297-315 | activations increase, and a ticket overtaken before it ran never runs |
| PreviewQueue.TakingIsRecorded | src-tauri/src/app_theme/runner.rs:313-315 | the tickets that the results speak of as activated are those of the requests that take the slot, when they take it |
| PreviewQueue.MarkedNeverSpawns | src-tauri/src/app_theme/runner.rs:407-415 | a request marked before it tests its token never starts its child |
| PreviewQueue.NeverStuck | src-tauri/src/app_theme/runner.rs:302-338 | every unfinished request can step, or sleeps alone with its own ticket pending behind a slot owner that can |
| PreviewQueue.CancellationStopsExactly | src-tauri/src/app_theme/runner.rs:219-228 | over all runs and all cancellations: a request with its ticket drawn and its child not started is surely stopped if and only if the first region finds its token installed or the second finds its ticket not activated |
| PreviewQueue.ArmedIsStopped | src-tauri/src/app_theme/runner.rs:219-224 | a request whose token is installed when a cancellation runs its first region never starts its child |
| PreviewQueue.UnactivatedIsStopped | src-tauri/src/app_theme/runner.rs:225-228 | a request whose ticket has not activated when the second region runs never starts its child |
| PreviewQueue.UnarmedCanStart | src-tauri/src/app_theme/runner.rs:313-327 | from every reachable state in which a request owns the slot without a token and a cancellation is between its regions, the child can start unmarked |
| PreviewQueue.WaiterCanEscape | src-tauri/src/app_theme/runner.rs:219-228 | a concrete run in which a whole cancellation marks the running request and the next one activates before the second region and starts |
| PreviewQueue.CancellationCanBeLost | src-tauri/src/app_theme/runner.rs:313-325 | a concrete run in which a whole cancellation falls between activation and installation and the child starts unmarked |
| PreviewQueue.OutcomeIsExact | src-tauri/src/app_theme/runner.rs:278-340 | over all runs a call returns its child's own result or a cancellation if and only if one of its own steps made it so |
| PreviewQueue.CancelledHasCause | src-tauri/src/app_theme/runner.rs:278-340 | no request is cancelled spuriously: a newer ticket, a cleared pending ticket, or a store through its token came before |
| PreviewQueue.UnmarkedIsAnswered | src-tauri/src/app_theme/runner.rs:278-340 | a request whose child started ends with the child's own result unless its token is set |
| TarReader.PreflightArchiveHeaders | tools/public-runtime-input.py:152-252 | the block loop returns what the recursive scan of the whole stream defines, errors included |
| TarReader.ReadOne | tools/public-runtime-input.py:167-246 | one header, its body and its padding, or the first error of that pass |
| TarReader.PassIsRun | tools/public-runtime-input.py:159-246 | one pass of the loop is one step of the scan |
| TarReader.TailStep | tools/public-runtime-input.py:161-166 | checking the tail block by block is asking whether all of it is zero |
| TarFormat.ParsesExactly | tools/public-runtime-input.py:143-149 | a field parses to a number if and only if it is spaces, octal digits of that number by their places, then NULs and spaces |
| TarFormat.HeaderExactly | tools/public-runtime-input.py:177-236 | a header is read as a member if and only if its bytes declare that member canonically (magic, zeros, checksum, type, name, owner, time, mode, size, link) and there is room for it |
| TarFormat.AcceptsExactly | tools/public-runtime-input.py:152-252 | a stream is accepted if and only if it is a canonical member list and then zeros, and the result is that list's names in order and the last member's body |
| Utf8.ValidExactly | tools/public-runtime-input.py:196-199 | bytes decode as UTF-8 if and only if they are the encoding of a sequence of characters, by the arithmetic of RFC 3629 |
| TarWriter.NumberRoundTrip | tools/public-runtime-input.py:143-149 | a number written in octal with a terminator parses back |
| TarWriter.ChecksumRoundTrip | tools/public-runtime-input.py:184-189 | the checksum field parses back to the sum of the header with that field blank |
| TarWriter.TextRoundTrip | tools/public-runtime-input.py:194-195 | a NUL-padded text reads back up to the padding |
| TarWriter.SparseTestReadsPrefix | tools/public-runtime-input.py:181-182 | the sparse test is passed exactly by prefixes of at most 41 bytes |
| TarWriter.ReadHeader | tools/public-runtime-input.py:177-236 | the header of any well-formed member reads back as its name, kind and size |
| TarWriter.RunArchive | tools/public-runtime-input.py:152-252 | scanning the laid-out members adds their names, sizes and manifest in order |
| TarWriter.PreflightInvertsWriter | tools/public-runtime-input.py:152-252 | for every member list within the quotas that ends in the manifest, the preflight of its ustar archive returns the names in order and the manifest bytes if and only if every prefix has at most 41 bytes |
| TarWriter.ManifestAlone | tools/public-runtime-input.py:208-252 | the manifest alone, of any admitted size, is a member list within the quotas |
| TarWriter.ArchiveBytesDetermineNames | tools/public-runtime-input.py:152-252 | two such archives with equal bytes have equal names and manifests |
| TarWriter.AcceptedArchive | tools/public-runtime-input.py:152-252 | whatever stream is accepted: names distinct and safe, manifest last, end marker on a block boundary and only zeros after it |
| ArchiveManifest.ManifestRows | tools/public-runtime-input.py:272-310 | accepts exactly the manifests within the quotas with distinct safe paths and the private directory, and returns the table, the member order and the byte total |
| ArchiveManifest.BuildTable | tools/public-runtime-input.py:285-293 | accepts exactly safe, distinct paths and returns the table of rows |
| ArchiveManifest.RowMapAt | tools/public-runtime-input.py:285-293 | every listed row is in the table under its path |
| ArchiveManifest.ByDepthIsWeakOrder | tools/public-runtime-input.py:299-299 | depth, then path, is an order fit for sorting |
| ArchiveExtract.ResolveAlias | tools/public-runtime-input.py:393-399 | the loop with the visited set terminates and finds what the chain defines |
| ArchiveExtract.ResolutionIsExact | tools/public-runtime-input.py:393-399 | an alias resolves to a path if and only if its chain leaves the aliases there |
| ArchiveExtract.ValidateArchive | tools/public-runtime-input.py:353-403 | accepts exactly the member lists that match the manifest, in kind, size, ancestors and alias chains |
| ArchiveExtract.ChainsEndAtCanonical | tools/public-runtime-input.py:389-401 | in an accepted archive every alias chain ends at the regular file its first alias declares |
| ArchiveExtract.ExitIsUnique | tools/public-runtime-input.py:393-399 | a chain leaves the aliases at one path only |
| ArchiveExtract.ChainsShareCanonical | tools/public-runtime-input.py:389-401 | all aliases along one chain declare the same canonical file |
| ArchiveLinks.DotsStay | tools/public-runtime-input.py:386-386 | empty parts and "." in a link change nothing |
| ArchiveLinks.LinkLeads | tools/public-runtime-input.py:386-399 | a link that climbs k directories and then names a path, standing in a directory, leads to that path under what is left of the directory |
| ArchiveLinks.SafeNamesDescend | tools/public-runtime-input.py:45-66 | a safe member name is its own normal form: nothing in it stays or climbs |
| ArchiveExtract.ParentIsMember | tools/public-runtime-input.py:374-379 | the parent of every member of an accepted archive is a directory member |
| ArchiveExtract.ExtractMembers | tools/public-runtime-input.py:474-520 | creates manifest, directories, regulars and aliases in that order, or stops at the first creation that fails |
| ArchiveExtract.AcceptedExtracts | tools/public-runtime-input.py:474-520 | for an accepted archive every creation lands on a fresh path under a real directory, and the tree ends as exactly the members |
| ArchiveExtract.ExtractedTreeIsManifest | tools/public-runtime-input.py:474-520 | that tree has exactly the manifest's paths with the declared kinds and sizes |
| ArchiveLinks.LinksReachCanonical | tools/public-runtime-input.py:380-401 | in the tree of an accepted archive, following an alias part by part as an operating system does reaches nothing but the canonical file, and reaches it if and only if every link of the chain turns only in directories |
| ArchiveLinks.ClimbersTurn | tools/public-runtime-input.py:386-386 | a link that only climbs before it names anything turns only in directories |
| ArchiveDetour.DetourIsAccepted | tools/public-runtime-input.py:380-401 | a concrete accepted archive whose alias passes through a name that is not there, so that nothing reaches its file |
| ArchiveInput.SpellingIsUnique | tools/public-runtime-input.py:582-591 | no two paths of an agreed archive are spelled alike |
| ArchiveInput.PreflightedTree | tools/public-runtime-input.py:582-591 | for a byte stream the preflight accepts and whose names and manifest agree with the validated archive, the extraction succeeds and its tree has exactly one path for each name read from the bytes |
| ModuleSearch.ResolveSpecifier | src-tauri/src/app_theme/payload_authentication.rs:452-464 | the component loop gives what resolution defines |
| ModuleSearch.ResolvesExactly | src-tauri/src/app_theme/payload_authentication.rs:452-464 | a specifier resolves if and only if no prefix of its components climbs above `dist`, and the result is under `dist` at the net depth |
| ModuleSearch.Targets | src-tauri/src/app_theme/payload_authentication.rs:450-466 | every import of a module resolved, or nothing when one leaves `dist` |
| ModuleSearch.VerifyReachability | src-tauri/src/app_theme/payload_authentication.rs:425-474 | terminates, and succeeds if and only if everything reachable from the index is declared, readable and imports only under `dist`, and both required modules are reachable |
| ModuleSearch.ClosedHasTrail | src-tauri/src/app_theme/payload_authentication.rs:433-467 | a set with the index that is closed under imports contains everything reachable |
| ModuleSearch.ExtractSpecifiers | src-tauri/src/app_theme/payload_authentication.rs:402-423 | the line scan collects, in order, the relative specifiers between the last two quotes of each kind on import and export lines |
| ImportMeaning.ResolveIsNet | src-tauri/src/app_theme/payload_authentication.rs:450-465 | a resolved specifier is what its net climb leaves of the directory, then its net names |
| ImportMeaning.ImportLeads | src-tauri/src/app_theme/payload_authentication.rs:450-465 | j climbs and then names, in the module d/f, name the file under what is left of d, or are refused when they climb out of `dist` |
| ImportMeaning.WrittenLeads | src-tauri/src/app_theme/payload_authentication.rs:450-465 | the same from the specifier as it is written, ./a/b.js or ../../c.js |
| ImportMeaning.DotsAreNoSteps | src-tauri/src/app_theme/payload_authentication.rs:453-463 | empty parts, and "." after the first part, are no steps |
| ImportMeaning.RelativeExactly | src-tauri/src/app_theme/payload_authentication.rs:414-416 | a specifier is relative if and only if it is ./ or ../, anything, and .js or .mjs |
| ImportMeaning.ImportLine | src-tauri/src/app_theme/payload_authentication.rs:405-421 | a line that imports or exports from a quoted specifier, of either quote, has that specifier exactly when it is relative |
| ImportMeaning.OtherLine | src-tauri/src/app_theme/payload_authentication.rs:405-409 | a line that starts with another word has none |
| ImportMeaning.LinesInOrder | src-tauri/src/app_theme/payload_authentication.rs:402-423 | the specifiers of a text are those of its lines, in order |
| Trimming.SpacesExactly | src-tauri/src/app_theme/payload_authentication.rs:405-406 | the bytes that are trimmed are the encodings of the characters with the property White_Space |
| Trimming.Trimmed | src-tauri/src/app_theme/payload_authentication.rs:405-406 | exactly the white space around a text with visible ends is trimmed |
| PayloadGraph.NameLeadsThere | src-tauri/src/app_theme/payload_authentication.rs:439-444 | a path without backslashes is declared under the name that leads to it |
| PayloadGraph.SearchReadsFiles | src-tauri/src/app_theme/payload_authentication.rs:445-449 | in an authentic payload the search is given exactly the readable module files and their specifiers |
| PayloadGraph.ClosedGraph | src-tauri/src/app_theme/payload_authentication.rs:425-474 | in an accepted authentic payload every reachable module is a declared member with the declared digest, and every relative import in its text names another such file, where its net climb and names lead from the importing file's own directory |
| PayloadGraph.ImportedFileIsThere | src-tauri/src/app_theme/payload_authentication.rs:425-474 | a line of such a module that imports names under the directory j levels up names a file that is there and is reachable again |
| PayloadGraph.VerifyPayload | src-tauri/src/app_theme/payload_authentication.rs:502-580 | accepts exactly the payloads that are authentic and whose import graph is closed |
| PayloadTree.ReadEntries | src-tauri/src/app_theme/payload_authentication.rs:357-378 | accepts exactly directories of well-formed names that differ when case is ignored, and sorts them |
| PayloadTree.Collect | src-tauri/src/app_theme/payload_authentication.rs:344-400 | accepts exactly the trees within depth, length, kind and count limits, and appends their files in order |
| PayloadTree.ListsExactlyFiles | src-tauri/src/app_theme/payload_authentication.rs:379-398 | a path is listed if and only if a file is there |
| PayloadTree.FilesAreDistinct | src-tauri/src/app_theme/payload_authentication.rs:379-398 | each file is listed once |
| PayloadTree.ListedIsMemberPath | src-tauri/src/app_theme/payload_authentication.rs:287-303 | every listed path is one the manifest's path grammar allows |
| PayloadTree.CaseUnique | src-tauri/src/app_theme/payload_authentication.rs:365-372 | the case check in each directory makes all listed paths different even when case is ignored |
| MemberPaths.SegmentsExactly | src-tauri/src/app_theme/payload_authentication.rs:283-285 | a segment is letters, digits, periods, underscores and hyphens |
| MemberPaths.MemberPathExactly | src-tauri/src/app_theme/payload_authentication.rs:287-302 | a member path is `dist` and one to fifteen segments after it, in at most 256 bytes, and nothing else |
| MemberPaths.LowerExactly | src-tauri/src/app_theme/payload_authentication.rs:369-369 | only capital letters have another lower case, the letter of the same place |
| MemberPaths.DigestsExactly | src-tauri/src/app_theme/payload_authentication.rs:50-55 | a digest is 64 digits or letters from a to f |
| PayloadTree.CheckMembers | src-tauri/src/app_theme/payload_authentication.rs:520-540 | accepts exactly good members in strictly ascending order with no two alike when case is ignored |
| PayloadTree.SortedWalkIsDeclared | src-tauri/src/app_theme/payload_authentication.rs:542-547 | comparing the sorted walk with the declared list compares the two as sets |
| PayloadTree.CheckContents | src-tauri/src/app_theme/payload_authentication.rs:549-569 | accepts exactly members whose file has the declared size and digest, within the total |
| PayloadTree.SummaryDetermines | src-tauri/src/app_theme/payload_authentication.rs:568-576 | the text whose digest is the inventory determines every member's path and digest |
| PayloadTree.SummaryListsMembers | src-tauri/src/app_theme/payload_authentication.rs:550-571 | the inventory's text splits into a line for each member in manifest order, and each line at its colon into path and digest |
| PayloadTree.VerifyMembers | src-tauri/src/app_theme/payload_authentication.rs:502-576 | accepts exactly the payloads that are authentic in the declarative sense |
| PayloadTree.AuthenticFiles | src-tauri/src/app_theme/payload_authentication.rs:502-576 | in an authentic payload the files are exactly the declared members, with their sizes and digests |
| PayloadTree.CaseCheckIsImplied | src-tauri/src/app_theme/payload_authentication.rs:534-538 | the manifest's own case check follows from the other conditions |
| JsonReader.ReadsBack | src/design-evidence/canonical.ts:6-6 | a reader written from the grammar of RFC 8259 alone reads the text of every value, with and without indentation, as that value |
| JsonReader.EscapeIsShortest | src/design-evidence/canonical.ts:6-6 | no text that reads as a unit is shorter than the printer's |
| JsonReader.PairsArePlain | src/design-evidence/canonical.ts:6-6 | a surrogate pair is written as it is |
| JsonReader.EscapesAreLowerCase | src/design-evidence/canonical.ts:6-6 | hexadecimal escapes are lower-case |
| JsonLayout.PrettyIsIndented | src/design-evidence/canonical.ts:6-6 | the indented text is the compact text laid out in one pass: one item or field a line, two spaces for each open structure, a space after colons |
| JsonReader.CharsDetermine | src/design-evidence/canonical.ts:6-6 | a quoted string ends at its own closing quote and stands for one string |
| JsonReader.ValueDetermines | src/design-evidence/canonical.ts:6-6 | a value's text, at any depth and before any separator, stands for one value and shows where it ends |
| JsonReader.StringifyIsInjective | src/design-evidence/canonical.ts:6-6 | equal texts if and only if equal values, with and without indentation |
| JsonCanonical.SortJsonKeepsMeaning | src/design-evidence/canonical.ts:5-5 | sorting the keys keeps the value, up to the order of keys, and keeps keys distinct |
| JsonCanonical.MeaningDecides | src/design-evidence/canonical.ts:5-5 | values equal up to the order of keys have the same sorted form |
| JsonCanonical.SortedFormIdentifies | src/design-evidence/canonical.ts:5-5 | same sorted form if and only if equal up to the order of keys |
| JsonCanonical.SortJsonIsIdempotent | src/design-evidence/canonical.ts:5-5 | sorting twice is sorting once |
| JsonCanonical.IndexExactly | src/design-evidence/canonical.ts:5-5 | a key is an array index if and only if it is the decimal text of a number below 2^32 - 1 |
| JsonCanonical.OwnOrderIs | src/design-evidence/canonical.ts:5-5 | own properties come with array indices first, by number, then the other keys as they came, and none is lost |
| JsonCanonical.SortedFormsAgree | src/design-evidence/canonical.ts:5-5 | without keys that are array indices, rebuilding the object does not disturb the sorted order |
| JsonCanonical.CanonicalTextIdentifies | src/design-evidence/canonical.ts:5-6 | same canonical packet text if and only if equal up to the order of keys |
| JsonCanonical.DigestCoversPacket | src/design-evidence/canonical.ts:3-11 | two packets hash the same text if and only if they are of one kind and agree on every field but that kind's digest |
| JsonCanonical.NamedAfterKind | src/design-evidence/canonical.ts:3-11 | schema, digest domain and digest field of a packet are all named after its kind, and the hashed text starts with the domain |
| JsonCanonical.CompactTextIsPrinted | src/brand-read/validators.ts:171-171 | the joined compact text is the printer's text of the sorted value |
| JsonCanonical.CompactTextIdentifies | src/brand-read/validators.ts:171-171 | same compact text if and only if equal up to the order of keys |
| Identifiers.TextsAgree | src-tauri/src/design_evidence/validate.rs:29-36 | the host's and the browser's text rules accept the same strings |
| Identifiers.DigestsAgree | src-tauri/src/design_evidence/validate.rs:21-27 | the digest test accepts exactly the language of the browser's expression |
| Identifiers.AcceptsExactly | src-tauri/src/design_evidence/validate.rs:45-56 | from either state the automaton accepts exactly what the rest of the expression matches |
| Identifiers.ClassesExactly | src/design-evidence/validate.ts:30-34 | the letters and digits that both sides accept are those of the alphabet |
| Identifiers.IdsAgree | src-tauri/src/design_evidence/validate.rs:38-57 | host and browser accept the same public identifiers |
| Identifiers.PublicId | src-tauri/src/design_evidence/validate.rs:38-57 | the byte loop accepts exactly the language of the browser's identifier expression |
| Identifiers.PackageIdsAgree | src-tauri/src/design_evidence/validate.rs:59-80 | host and browser accept the same package identifiers |
| Identifiers.VersionsAgree | src-tauri/src/design_evidence/validate.rs:82-102 | host and browser accept the same versions |
| Identifiers.BackgroundsDifferByLength | src/design-evidence/validate.ts:133-137 | the browser accepts a background if and only if the host does and it has at most 128 bytes |
| Identifiers.LongBackground | src-tauri/src/design_evidence/validate.rs:126-152 | a background that the host accepts and the browser does not |
| ReviewValidators.CompareUtf8 | src/design-evidence/validate.ts:100-104 | the sign of the result is the byte order, and zero means equal |
| ReviewValidators.SortedRulesAgree | src/design-evidence/validate.ts:106-109 | no duplicates and equal to the sorted copy, if and only if each value is less than the next |
| ReviewValidators.SortedSubsetIsAll | src-tauri/src/design_evidence/validate.rs:493-502 | a sorted list without repetition inside another of the same length is that list |
| ReviewValidators.NulJoinedOrder | src/design-evidence/validate.ts:139-144 | comparing texts joined by NUL is comparing the triples, prefixes included |
| ReviewValidators.MaterialsAgree | src-tauri/src/design_evidence/validate.rs:176-188 | host and browser accept the same lists of materials |
| ReviewValidators.TallyDispositions | src/design-evidence/validate.ts:200-201 | the loop accepts exactly dispositions for candidates with at most one selection, and counts the reviewed |
| ReviewValidators.SelectionsAgree | src-tauri/src/design_evidence/validate.rs:503-516 | the browser's test by names and the host's by enumerated values select the same dispositions |
| ReviewValidators.StatusesReadBack | src-tauri/src/design_evidence/types.rs:364-372 | a status is read from exactly its own name |
| ReviewValidators.KindsReadBack | src-tauri/src/design_evidence/types.rs:130-136 | a material kind is read from exactly its own name |
| ReviewValidators.AnnotationRulesAgree | src-tauri/src/design_evidence/validate.rs:463-492 | host and browser accept the same annotations, region bounds with saturating sums included |
| ReviewValidators.OverallRulesAgree | src-tauri/src/design_evidence/validate.rs:521-553 | exactly one matching disposition is any matching disposition |
| ReviewValidators.DispositionsAgree | src-tauri/src/design_evidence/validate.rs:493-553 | host and browser accept the same dispositions and overall disposition |
| ReviewValidators.ReviewsAgree | src-tauri/src/design_evidence/validate.rs:434-555 | host and browser accept exactly the same typed reviews |
| DigestTwins.SameOrder | src-tauri/src/sidecar/json_decoder.rs:24-37 | without surrogates, the order of the UTF-8 bytes is the order of the UTF-16 units |
| DigestTwins.OrdersPart | src-tauri/src/sidecar/json_decoder.rs:24-37 | two keys, one with a surrogate pair, that browser and host order differently |
| DigestTwins.SortedFormsAreOne | src-tauri/src/sidecar/json_decoder.rs:10-37 | host and browser sort a value into one form when no key is an array index or has a surrogate |
| DigestTwins.SidesHashOneText | src-tauri/src/design_evidence/validate.rs:557-590 | host and browser hash the same text for the same packet, with its keys in any order |
| DigestTwins.PacketIsPlain | src/design-evidence/validate.ts:192-206 | the keys of a review packet, at any depth, are no array indices and have no surrogates |
| DigestTwins.ReviewPacketsAgree | src-tauri/src/design_evidence/validate.rs:434-590 | host and browser accept exactly the same whole review packets, digest included |
| SceneEdits.ApplyOperations | src-tauri/src/scene/session.rs:391-464 | the loop applies all edits in order or stops at the first failure |
| SceneEdits.FindElement | src-tauri/src/scene/session.rs:430-433 | the first element with the identifier, if any |
| SceneEdits.MoveIsPermutation | src-tauri/src/scene/session.rs:429-441 | a move succeeds if and only if the identifier occurs; it puts the first such element at its new place, keeps the others in order and loses none |
| SceneEdits.MoveBack | src-tauri/src/scene/session.rs:429-441 | an element with a unique identifier can be moved back |
| SceneEdits.RemovalKeepsOthers | src-tauri/src/scene/session.rs:426-428 | a removal takes out every element with the identifier; each other stays as often as it occurred and in its place among the rest |
| SceneEdits.BatchesCompose | src-tauri/src/scene/session.rs:391-464 | a batch is its first part followed by its second |
| EditLaws.AppliesExactly | src-tauri/src/scene/session.rs:391-459 | each edit is accepted if and only if the scene has room, has the identifier, or the replacement is of the supported format; otherwise with that edit's own reason |
| EditLaws.OtherPartsStay | src-tauri/src/scene/session.rs:391-459 | an edit changes its own part of the scene only |
| EditLaws.SettersUndo | src-tauri/src/scene/session.rs:393-448 | a setter is undone by setting the old value |
| EditLaws.InsertionPlaces | src-tauri/src/scene/session.rs:402-412 | an insertion puts the element at the index asked for, or at the end, and shifts the rest |
| EditLaws.UpdateReplacesFirst | src-tauri/src/scene/session.rs:413-425 | an update replaces the first element with the identifier and no other |
| EditLaws.BatchAppliesExactly | src-tauri/src/scene/session.rs:389-464 | a batch is accepted if and only if each edit is accepted by the scene it meets |
| PacketWindow.RetainIsOptimal | src-tauri/src/scene/session.rs:720-743 | one arrival keeps the window the longest suffix of the history that fits |
| PacketWindow.WindowIsOptimal | src-tauri/src/scene/session.rs:705-745 | after any accepted packets the window is the longest suffix with at most four packets and 32 MiB, and the newest is last |
| PacketWindow.TotalIsLength | src-tauri/src/scene/session.rs:705-745 | the running total is the length of all retained texts together |
| SceneSession.ColourIsHexExactly | src-tauri/src/scene/session.rs:493-508 | an accepted colour is hexadecimal if and only if it came from six digits or from eight bytes that start with six |
| SceneSession.EightByteColourIsUnchecked | src-tauri/src/scene/session.rs:495-500 | a concrete colour accepted without its first six bytes being digits |
| SceneSession.ColourExactly | src-tauri/src/scene/session.rs:489-507 | between white space and with a number sign before it or not, exactly six hexadecimal digits or eight bytes that end in ff are accepted, and give a number sign and the first six |
| SceneSession.ValidateBindings | src-tauri/src/scene/session.rs:491-509 | accepts exactly bindings whose colours all pass, and returns them normalized |
| SceneSession.SceneSession.NextRevision | src-tauri/src/scene/session.rs:178-187 | one more, or refused when disposed or at the largest revision |
| SceneSession.SceneSession.CheckExpected | src-tauri/src/scene/session.rs:189-217 | the first mismatch, in the order of the checks |
| SceneSession.SceneSession.BeginReplacementIntent | src-tauri/src/scene/session.rs:219-256 | a new reservation for the current revision and digest, or the refusal and no change |
| SceneSession.SceneSession.CancelReplacementIntent | src-tauri/src/scene/session.rs:258-262 | only that reservation is removed |
| SceneSession.SceneSession.ValidateReplacementIntent | src-tauri/src/scene/session.rs:264-284 | the first reason a reservation is not current |
| SceneSession.SceneSession.Dispose | src-tauri/src/scene/session.rs:306-313 | all retained things go and the session is marked |
| SceneSession.SceneSession.ApplyEdits | src-tauri/src/scene/session.rs:372-477 | the whole new state, or the refusal and no change |
| SceneSession.SceneSession.BindTokens | src-tauri/src/scene/session.rs:479-529 | the whole new state, or the refusal and no change |
| SceneSession.SceneSession.RetainSavePlan | src-tauri/src/scene/session.rs:531-594 | the plan made from validated text whose digest the receipt names, or the refusal |
| SceneSession.SceneSession.RetainExportPlan | src-tauri/src/scene/session.rs:596-663 | the plan made from the compiled drawing, or the refusal |
| SceneSession.SceneSession.TakeSavePlan | src-tauri/src/scene/session.rs:665-683 | the slot is emptied whatever the answer, and the plan is handed out only when current |
| SceneSession.SceneSession.TakeExportPlan | src-tauri/src/scene/session.rs:685-703 | the same for the export slot |
| SceneSession.SceneSession.RetainPacket | src-tauri/src/scene/session.rs:705-745 | both eviction loops terminate with the window the arrival defines, the running total being the true sum |
| SceneSession.SceneSession.RetainVerification | src-tauri/src/scene/session.rs:754-782 | the verification replaces one with its handle, at most four stay, and disposal is not asked about |
| SceneSession.SceneSession.TakeVerification | src-tauri/src/scene/session.rs:784-795 | the verification with the handle leaves the list, and is handed out unless expired |
| SessionRuns.EditsAreAllOrNothing | src-tauri/src/scene/session.rs:372-477 | a batch succeeds if and only if the session is open and the batch fits (limits, each edit accepted by the scene it meets, a revision left), and then as a whole with the revision one higher and all evidence gone; otherwise nothing changes |
| SessionRuns.BindingsAreAllOrNothing | src-tauri/src/scene/session.rs:479-529 | a binding succeeds exactly when open, not older, of good colours within the limits, and then raises the revision by one and replaces only the scene's bindings; otherwise nothing changes |
| SessionRuns.StaysSynced | src-tauri/src/scene/session.rs:298-304 | every step keeps text and digest those of the current scene |
| SessionRuns.DigestFollowsScene | src-tauri/src/scene/session.rs:298-304 | in every state of every run the digest is that of the current scene's serialization |
| SessionRuns.Perform | src-tauri/src/scene/session.rs:219-795 | any step taken on the session itself has the effect and the answer that runs are about |
| SessionRuns.Drive | src-tauri/src/scene/session.rs:136-795 | any steps on a new session make a run, with its outcomes |
| SessionRuns.RunAdvances | src-tauri/src/scene/session.rs:178-187 | revisions never go back, disposal is never undone, and the same revision means the same scene and digest |
| SessionRuns.PlanRises | src-tauri/src/scene/session.rs:531-663 | a plan gets into its slot only by being retained, made from evidence whose receipt matches |
| SessionRuns.HandedOutPlanIsCurrent | src-tauri/src/scene/session.rs:665-703 | a plan handed out was retained earlier, and revision, scene and slot did not change in between |
| SessionRuns.PlansAreOneShot | src-tauri/src/scene/session.rs:665-703 | each plan handed out was retained after the previous one was handed out |
| SessionRuns.ValidReservationIsCurrent | src-tauri/src/scene/session.rs:264-284 | a reservation validates only if no edit, disposal, cancellation or newer reservation followed it |
| SessionRuns.HandedOutVerificationIsCurrent | src-tauri/src/scene/session.rs:754-795 | a verification handed out was kept earlier, and nothing invalidated it in between |
| SessionRuns.VerificationsAreOneShot | src-tauri/src/scene/session.rs:784-795 | a handle works again only once its verification has been kept again |
| SessionRuns.PacketsAreOptimal | src-tauri/src/scene/session.rs:705-745 | at any point of a run an open session holds the longest suffix of all accepted packets that fits |
| SessionRuns.DisposalIsFinal | src-tauri/src/scene/session.rs:306-313 | a disposed session refuses every edit, binding, plan, packet and reservation, and its scene and revision stay |
| SessionRuns.KeptIsHandedOut | src-tauri/src/scene/session.rs:754-795 | a verification kept is handed out under its handle, disposal or not, when nothing in between invalidates it, takes it or keeps four others |
| SessionRuns.DisposedKeepsVerifications | src-tauri/src/scene/session.rs:754-795 | a verification kept after a disposal is handed out by the next step that takes it |
| Base64.EncodeAppend | src/brand-read/validators.ts:169-169 | a prefix of whole groups of three bytes encodes by itself |
| Base64.EncodeInSlices | src/brand-read/validators.ts:169-169 | encoding in slices of 32,766 bytes gives the encoding of the whole |
| Base64.AlphabetIs | src/brand-read/validators.ts:169-169 | the 64 symbols are those of the alphabet, in its order, and no others |
| Base64.GroupsAreDigits | src/brand-read/validators.ts:169-169 | a group's symbols are the digits in base 64 of its number, a short last group shifted up to whole digits |
| Base64.DecodeInvertsEncode | src/brand-read/validators.ts:169-169 | forgiving decoding gives back what was encoded |
| Base64.DecodeBase64 | src/brand-read/validators.ts:169-169 | accepts a text if and only if it is the canonical encoding of some bytes, and returns them |
| Base64.EncodeIsInjective | src/brand-read/validators.ts:169-169 | a canonical text determines its bytes |
| Base64.MatchedIsAcceptedExactly | src/brand-read/validators.ts:168-169 | a text that the expression matches is accepted if and only if its leftover bits are zero, four before two padding characters and two before one |
| Base64.EncodingHasShape | src/brand-read/validators.ts:168-169 | every accepted text is matched by the expression |
| Framing.NdjsonFramer.Push | src-tauri/src/sidecar/framing.rs:24-46 | the outcome and the bytes held are those of feeding byte by byte |
| Framing.NdjsonFramer.Finish | src-tauri/src/sidecar/framing.rs:48-54 | succeeds if and only if nothing is pending |
| Framing.ChunksDoNotMatter | src-tauri/src/sidecar/framing.rs:24-46 | any cutting of a stream into chunks gives the same frames and rest, or the same first error |
| Framing.FramesAreLines | src-tauri/src/sidecar/framing.rs:24-46 | pushing succeeds if and only if every complete line is good and the rest is not too long; the frames are the lines |
| Framing.NothingIsLost | src-tauri/src/sidecar/framing.rs:24-46 | frames, their newlines and what is pending are the whole input, and every frame is good |
| Framing.LengthTestNeverFires | src-tauri/src/sidecar/framing.rs:24-46 | leaving out the test of a frame's length changes the outcome of no push, whatever is held |
| Framing.VisitStrict | src-tauri/src/sidecar/framing.rs:113-125 | the visit succeeds if and only if no object at any depth has a key twice |
| Coordinator.RequestCoordinator.Begin | src-tauri/src/sidecar/coordinator.rs:23-33 | an identifier becomes current unless it is zero, another is current, or it is remembered |
| Coordinator.RequestCoordinator.Complete | src-tauri/src/sidecar/coordinator.rs:41-48 | the current identifier becomes completed; any other is refused |
| Coordinator.RequestCoordinator.RetireTimeout | src-tauri/src/sidecar/coordinator.rs:50-57 | the current identifier becomes retired; any other is refused |
| Coordinator.RequestCoordinator.Classify | src-tauri/src/sidecar/coordinator.rs:59-69 | current, retired, completed or unknown, in that order |
| Coordinator.RequestCoordinator.InsertBounded | src-tauri/src/sidecar/coordinator.rs:77-85 | the loop drops the oldest until 64 are left |
| Coordinator.InsertRemembers | src-tauri/src/sidecar/coordinator.rs:77-85 | after an insertion queue and set still hold exactly the last 64 entries, without repetition |
| Coordinator.StepRefines | src-tauri/src/sidecar/coordinator.rs:23-85 | one call answers as with whole histories, and the three kinds of identifiers stay disjoint |
| Coordinator.RunRefines | src-tauri/src/sidecar/coordinator.rs:23-85 | over any calls the answers are those of whole histories |
| Coordinator.ReuseIsSpaced | src-tauri/src/sidecar/coordinator.rs:23-85 | equal entries of a history are more than 64 apart |

## Left out

- Child processes, pipes, reader threads, deadlines and reaping: the child's end is a nondeterministic step, and so is a close that gives up waiting; a cancelled request may still return its child's success when the child ends first.
- Panics and poisoned locks; a failed spawn is one of the possible results.
- Cancel tokens are named by the request that made them; sharing one allocation between threads is not modelled beyond that.
- PreviewQueue.NewestWins: does not model wrap-around of the theme runner's 64-bit tickets, because 2^64 calls would have to be made first; the same holds for every result about `DocumentQueue`.
- Fairness: nothing is said about how long a thread waits to be scheduled; `NeverStuck` and `NeverStalls` say that a step is always there to take.
- gzip and `tarfile` parsing, the JSON shape and the digests of the archive manifest, the owner and time fields as the library reports them, and the comparison of the regular-byte total, which repeats the sizes. `ArchiveInput` therefore takes the library's members and the parsed manifest beside the bytes, with the agreement the program demands.
- ArchiveExtract.ChainsEndAtCanonical: alias targets are resolved on names alone, as the program does.
- ArchiveLinks.LinksReachCanonical: the number of links an operating system is willing to follow is not bounded, and `..` in the output directory itself leads out of the tree, to nothing.
- Permissions, inode identity, symbolic-link races and publication of the output directory.
- The search reads module files by their paths alone: links and replaced files, which the program refuses while reading, are not modelled, and neither is what JavaScript itself counts as an import.
- The binding file and package file checks around the payload manifest, and the fixed set of top-level names.
- SHA-256, Unicode normalization form C and serde's writing of scenes, bindings and batches are function parameters. The writing is total: these types are derived structures and enumerations of strings, numbers, options, lists and maps with string keys, which serde always writes, so the error branches after it are not part of this model. serde's parsing of JSON is not modelled, and a frame's strictness is a parameter beside the key check of `VisitStrict`.
- JsonReader.ReadsBack: numbers are integers; the reader refuses fractions and exponents.
- JsonReader.StringifyIsInjective: numbers are integers; fractions and exponents are not modelled. The host's printer is this one too: with two spaces of indentation it writes strings, integers, lists and objects as `JSON.stringify` does.
- DigestTwins.SidesHashOneText: keys that are array indices or have surrogates are shut out; no packet's field has such a name, and `DigestTwins.OrdersPart` shows the two orders part there. The host's objects are ordered maps, since `serde_json` is built without insertion order (src-tauri/Cargo.lock:2705-2715).
- DigestTwins.ReviewPacketsAgree: a text's UTF-16 units are given by a parameter, the same for both sides. Whole briefs and candidates are not compared, because their backgrounds differ.
- JsonCanonical.SortedFormIdentifies: objects have each key once, which every JavaScript object does.
- ReviewValidators.ReviewsAgree: reviews have their declared types (enumerations, coordinates that are not negative); unknown fields and wrong types, which the two sides refuse by different means, are not compared, and neither are links between a review and its candidates.
- Briefs and candidates: the two sides differ on backgrounds, which `Identifiers.BackgroundsDifferByLength` states exactly; the rest of these validators would add field checks only.
- SceneSession.ColourIsHexExactly: does not model the panic of cutting a colour inside a multi-byte character; such a colour is refused here.
- SceneSession.ValidateBindings: does not model that panic either.
- SceneSession.SceneSession.BindTokens: does not model that panic either.
- Plan expiry is an input, plan and intent identifiers are inputs, and finding a target's parent directory and display name is an input that may be an error; times, paths and the display fields of responses are left out.
- The operations of a session that load or replace its source and run the compiler are not part of this model; compilation is a step that installs any evidence.
- Framing.NdjsonFramer.Push: frames completed earlier in a push that then fails are dropped, as in the code; what later pushes do with the bytes still held is not studied.
- The field-shape validators of brand plans and brand reads, pages and ordered lists there, user interface, commands, dialogs, launchers and build pins.
