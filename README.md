# Sticker-set downloader: a verified model of the sticker-message handler

The bot answers a sticker message by downloading the sticker set that the
sticker belongs to. It writes every sticker of the set to a local directory
named after the set, and reports progress by editing one status message in
the chat. This project models that handler (`src/index.ts:24-94`) in Dafny
and proves what it does.

The model has two layers:

- **Specification functions** (`Handler`): `Handle`, `FetchAndDownload`,
  `LoopPrefix` and `IndexStep` describe one invocation as a value. The storage
  tree under the root sticker directory is a `Store`, a map from set name to
  directory, where a directory maps file name to bytes. The platform's
  answers are an `Env`, which holds:
  - the id the platform gives the status message;
  - the set's stickers in order, each with or without a file path from
    `getFile` (and, with one, its extension and bytes);
  - a failure oracle naming the one external step, if any, that throws.

  What the handler does to the world is a trace of `Event`s: replies sent,
  edits of the status message, and the external calls that completed. A call
  that throws leaves no event. The error boundary then appends the error
  notice.
- **The handler as it runs** (`Downloader.StickerBot`): a class whose fields
  are the storage tree and the trace. Its methods follow the source step by
  step: early returns, the `continue` for a sticker without a path, a `while`
  loop over the positions that stops at the first throwing step, and the
  error boundary. Each method is proved to leave exactly the state that
  the specification functions give.

On top of the specification, `LoopProperties` proves facts about the loop
after its first k positions, by induction on k. `HandlerProperties` lifts
them to whole invocations. `Naming` holds the file-name scheme
`<set>_<i><ext>` and the progress cadence. `Messages` holds the chat texts.
`Scenarios` works through one concrete run.

One might expect a progress update after the final position in every run.
In the code, however, a sticker without a path is skipped (line 60) before the
cadence check (line 74). So when the last sticker has no path, no update
reports all stickers. `HandlerProperties.LastSkippedNoFullProgress` and
`Scenarios.TwoStickersOneSkipped` state this behaviour.

## Model

| member | source | states |
|---|---|---|
| Naming.NatToString | src/index.ts:67 | the index in a file name is written in decimal: at least one character, all digits, one digit exactly below ten, no leading zero (a first digit '0' only for zero), and the last digit is the index modulo ten |
| Naming.FileNameShape | src/index.ts:67 | the file name of position i is the set name, then '_', then the decimal index, then the extension, each at its own offset |
| Naming.ParseNatToString | src/index.ts:67 | reading the decimal index back gives the index again |
| Naming.NatToStringInjective | src/index.ts:67 | distinct indices have distinct decimal renderings |
| Naming.FileNameInjective | src/index.ts:66-68 | if extensions are empty or start with '.', two file names of one set are equal only for the same position and extension, so no write of a run overwrites another write of that run |
| Naming.ProgressGap | src/index.ts:74 | from every position, one of the next five positions (or the last position) is due for a progress edit |
| Naming.ProgressDueCharacterized | src/index.ts:74 | a position is due exactly when it is the last one or when a multiple of five positions has been passed |
| Naming.TwelveStickerCadence | src/index.ts:74 | with twelve stickers, positions 4, 9 and 11, and no others, are due for a progress edit |
| Messages.Symbol | src/index.ts:27-92 | only the request for a set sticker has no leading symbol; every other text's symbol ends with a space |
| Messages.Render | src/index.ts:27-92 | every text the user sees begins with its symbol and is as long as its symbol and its words together |
| Messages.WordsQuoteSetName | src/index.ts:43-87 | the "already downloaded", progress and completion texts quote the set name in double quotes right after their opening words |
| Messages.FinalTextsDistinguishable | src/index.ts:33-92 | a rendered text other than the request for a set sticker starts with the symbol of "Processing" exactly when it is not final (already downloaded, completed, error) |
| Handler.FaultIndex | src/index.ts:56-81 | names the position at which the loop throws, if any; that position is the only one where a loop step throws |
| Handler.IndexStep | src/index.ts:57-80 | one pass of the loop throws exactly when the oracle's step is reached at that position; it writes the file `<set>_<i><ext>` with the downloaded bytes exactly when the position has a path and none of its calls up to the write throws, and otherwise leaves the directory unchanged |
| Handler.LoopPrefix | src/index.ts:56-81 | after k positions, the loop has thrown exactly when some step of those positions throws; files present before the loop are never removed |
| Handler.FetchAndDownload | src/index.ts:50-93 | the fetch, mkdir, loop and completion stage changes no directory but the set's own and adds no other directory |
| Handler.Handle | src/index.ts:24-94 | one invocation changes no directory but the one named by the sticker's set and adds no other directory |
| LoopProperties.StepTrace | src/index.ts:57-80 | one pass records only events of its own position: the `getFile` call unless it throws, the write exactly when the file is written, and the progress edit exactly when the position wrote, is due and the edit does not throw; a reporting position has exactly four events, with the progress edit right after the write |
| LoopProperties.StepKinds | src/index.ts:57-80 | a position throws, is skipped for want of a path, writes and reports, or writes with no report due; a position that writes and then throws throws at its due progress edit |
| LoopProperties.StaysFailed | src/index.ts:56-93 | once a step has thrown, the remaining positions are not processed |
| LoopProperties.LoopTraceShape | src/index.ts:56-81 | the loop only queries, downloads, writes and edits the status message with progress, each for a position already passed, and a progress edit only for a position with a path |
| LoopProperties.LoopPositionsOrdered | src/index.ts:56-80 | the loop handles one position at a time: no event of a position comes after an event of a later one, so each progress edit follows its own write and precedes the next position's query |
| LoopProperties.LoopWritesInOrder | src/index.ts:56-71 | the loop writes in strictly increasing position order, at most once per position, and only for positions already passed |
| LoopProperties.LoopFileKept | src/index.ts:66-71 | the file of a visited position that was written survives the rest of the loop with its downloaded bytes |
| LoopProperties.LoopFileOrigin | src/index.ts:56-71 | every directory entry after the loop was there before or is the file of a visited, written position |
| LoopProperties.LoopFiles | src/index.ts:56-71 | after k positions, the directory holds the file of every visited written position with its bytes, and nothing new besides |
| LoopProperties.LoopQueries | src/index.ts:56-58 | `getFile` has completed exactly for the visited positions whose call did not throw |
| LoopProperties.LoopProgress | src/index.ts:74-80 | a progress edit `i+1/N` has been sent exactly for the visited positions that wrote their file, are due, and whose edit did not throw |
| Downloader.StickerBot.constructor | src/index.ts:18-21 | the handler starts from the storage tree under the existing root sticker directory and an empty trace |
| Downloader.StickerBot.Reply | src/index.ts:27 | a reply adds one sent text to the chat and changes no file |
| Downloader.StickerBot.EditStatus | src/index.ts:40-44 | an edit of the status message adds one edit event and changes no file |
| Downloader.StickerBot.Record | src/index.ts:50-64 | a completed call to the sticker service or the file host adds its one event and changes no file |
| Downloader.StickerBot.WriteFile | src/index.ts:71 | writing a file sets that one entry of the set's directory, overwriting it, and changes nothing else |
| Downloader.StickerBot.VisitPosition | src/index.ts:57-80 | the loop body, run with early returns and the `continue`, leaves the storage tree, the trace and the thrown flag that `IndexStep` gives |
| Downloader.StickerBot.DownloadAll | src/index.ts:56-81 | the `for` loop, stopping at the first throw, leaves the state that `LoopPrefix` gives over every position |
| Downloader.StickerBot.FetchAndDownload | src/index.ts:50-93 | the fetch, mkdir, loop and completion stage, with its error boundary, leaves the state that `Handler.FetchAndDownload` gives |
| Downloader.StickerBot.OnSticker | src/index.ts:24-94 | the whole handler leaves the storage tree and the trace that `Handle` gives |
| HandlerProperties.GuardOnly | src/index.ts:26-29 | the request for a set sticker is sent exactly when the set name is missing or empty; it is then the only event, and the storage tree is unchanged |
| HandlerProperties.PreLoopFaultLeavesNoChange | src/index.ts:31-54 | a throw at the status reply, the directory listing, the set fetch or the directory creation changes no file, reaches no position, creates no directory and ends with the error notice |
| HandlerProperties.StatusMessageSentOnce | src/index.ts:27-92 | the only new messages are the request for a set sticker, "Processing" and the error notice, and "Processing" is sent only as the first event: progress, "already downloaded" and completion go out as edits of the one status message |
| HandlerProperties.ShortCircuitWhenDownloaded | src/index.ts:36-47 | for a set whose directory holds an entry: the storage tree is unchanged; the run sends replies and the "already downloaded" edit only, with no fetch, query or write; and it is exactly "Processing" then that edit when nothing throws |
| HandlerProperties.EmptyDirDoesNotShortCircuit | src/index.ts:37-50 | an existing but empty directory is not taken as downloaded: the set is fetched |
| HandlerProperties.EditsTargetStatusMessage | src/index.ts:33-88 | every edit (progress, already downloaded, completed) goes to the status message created at the start |
| HandlerProperties.WritesInIndexOrder | src/index.ts:56-71 | files are written in strictly increasing position order, each position below N, so at most N files are written |
| HandlerProperties.SkippedPositionLeavesNoTrace | src/index.ts:58-60 | for a sticker without a path, the `getFile` call is the only event of its position: no download, no write, no progress edit |
| HandlerProperties.LastSkippedNoFullProgress | src/index.ts:60-80 | when the last sticker has no path, no progress edit reports all N stickers |
| HandlerProperties.OneFinalReport | src/index.ts:31-93 | once a set name is present, exactly one final event (error notice, already downloaded, or completed) is produced, and it is the last event |
| HandlerProperties.FailureIffFaultReached | src/index.ts:31-93 | once a set name is present, the error notice is sent exactly when the failing step lies on the path the invocation takes |
| HandlerProperties.SuccessfulDownloadFiles | src/index.ts:53-71 | when nothing throws, the set's directory ends up with exactly one file per sticker with a path, named `<set>_<i><ext>` and holding the downloaded bytes |
| HandlerProperties.SuccessfulLoopFiles | src/index.ts:56-71 | the loop over every position, starting from an empty directory and with nothing throwing, leaves exactly one file per position with a path, holding its bytes |
| HandlerProperties.SuccessfulDownloadTrace | src/index.ts:31-88 | when nothing throws, the run opens with "Processing", the set fetch and the directory; it queries every position; and it ends with the completion edit |
| HandlerProperties.SuccessfulDownloadProgress | src/index.ts:74-80 | when nothing throws, a progress edit `i+1/N` is sent exactly after the positions with a path that are due |
| HandlerProperties.AbortTrace | src/index.ts:56-93 | a throw at position k ends the run with the error notice, queries no later position and never says the set is complete |
| HandlerProperties.AbortWithoutRollback | src/index.ts:53-93 | a throw at position k keeps the directory and the files of earlier positions with a path, with their bytes, and leaves no file of a later position |
| HandlerProperties.SecondRequestFindsDownloaded | src/index.ts:36-47 | after a run in which nothing throws and one sticker has a path, the next message for the set finds it downloaded: no fetch, no write, store unchanged |
| HandlerProperties.EmptyRunDownloadsAgain | src/index.ts:37-60 | a set none of whose stickers has a path leaves an empty directory, which the next message does not take as downloaded |
| Scenarios.TwoStickersOneSkipped | src/index.ts:56-88 | a set "cats" of two stickers, the second without a path, yields `cats_0.webp` and the exact trace, with no progress edit at all |

## Left out

- Environment validation, the bot token and the root directory path (`src/index.ts:1-13`) are start-up configuration outside the handler.
- Bot construction, start, stop and signal handling (`src/index.ts:16`, `109-119`) are process lifecycle. `bot.catch` and console logging (`src/index.ts:91`, `96-107`) only write to the log.
- Creating the root sticker directory at start-up (`src/index.ts:19-21`) is assumed to have happened: the storage tree is the contents of that directory.
- The download URL, `fetch` and the `Buffer` conversion (`src/index.ts:62-64`) are network I/O. The bytes of each sticker are an input. The HTTP status is not checked by the source either: whatever body comes back is written.
- `path.extname` and `path.join` are not modelled. The extension is an input. Injectivity of file names assumes it is empty or starts with '.'. The set name is taken as a literal directory name: names that `path.join` would rewrite (ones containing '/', or equal to '.' or '..') are not modelled.
- Inside the loop, the source's `sticker` is the set's own descriptor, which shadows the message's sticker. The file name (line 67) and the progress text (line 78) use its `set_name`. The model assumes this equals the message's set name.
- A failure of the set-sticker request (line 27) or of the error reply (line 92) lies outside the handler's error boundary and is assumed not to happen.
- The oracle names at most one throwing step. This loses nothing, since only the first step that throws is ever reached. A step that throws leaves no event, and its partial effects (for example a partly written file) are not modelled.
- A directory is a map from file names to bytes. Entries other than plain files (sub-directories, symlinks), which `readdirSync` (line 38) also counts, are not modelled.
- Two invocations running at once for the same set are not modelled. Each invocation is one atomic run.
- Naming.TwelveStickerCadence: states only which positions are due. An edit after a due position also needs the position to have a path and the edit not to throw; `LoopProperties.LoopProgress` and `HandlerProperties.SuccessfulDownloadProgress` state that.
- Messages.Render: states that a text begins with its symbol and has the combined length; that the rest is exactly `Messages.Words` is only the definition itself, not a separate contract.
- Messages.Words: the wording after the symbol is defined word for word, but the only property proved about it is where the quoted set name sits (`Messages.WordsQuoteSetName`).
- Handler.FetchAndDownload and Handler.Handle: their own contracts state only which directories can change. Their full behaviour is stated by the HandlerProperties lemmas and by the StickerBot methods proved equal to them.
