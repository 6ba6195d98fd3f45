# Drive folder download-and-tar, modelled in Dafny

This project models the core of `src/drive/download-file.ts` from a Telegram
mirror bot. The file mirrors a Google Drive folder to local disk, tars it,
uploads the archive back to Drive and reports the outcome. The model keeps the
decisions the file makes and replaces every remote or local effect with a
given outcome:

- `Mirror` (mirror.dfy): the recursive walk `downloadAllFiles`. The remote
  tree is a value: a `Folder` carries its listing, either its children in
  listing order or the error `driveListFiles` threw. A `File` carries whether
  its `downloadFile` call succeeds. `Walk` is the walk as a function.
  `DownloadAllFiles` is the walk as the source runs it: a method with the
  loop of lines 153-168, updating `errMsg` and `rmessage` and recursing into
  sub-folders. It is proved equal to `Walk`. `Files` is an independent
  reference: every file of the tree, depth-first, with its local path. The
  lemmas tie the walk to it.
- `Upload` (upload.dfy): how `driveUploadFile` turns the uploader's
  completion and the index-link lookup into the callback's arguments.
- `Pipeline` (pipeline.dfy): `driveDownloadAndTar` as a function from the
  stage outcomes (root metadata and tree, archiver, uploader, index lookup)
  to the way the job's promise settles. The result also records the calls the
  job made: the fetches, the `tar.archive` call, the path handed to the
  uploader, and the `deleteDownloadedFile` cleanup. `ReadSuccess` reads a
  success message back into the optional parts it carries.
- `Progress` (progress.dfy): the `DlVars` job state as a class, `getStatus` as
  a method that updates the two sampling fields in place, and the reporter
  run over a sequence of clock ticks.
- `Text` (text.dfy): `Option`, the `includes` test the job makes (line 79),
  and the prefix and suffix tests the model uses to read its messages and
  paths.

JavaScript truthiness is modelled directly. The empty string stands for both
`''` and `undefined`, so an error string counts as an error only when it is
non-empty. A size counts only when it is non-zero. The walk's `status` is
`false` where the source leaves it `undefined`.

Some of what the code does is worth knowing, because each point shows in the
source text itself:

- Nested walk results are thrown away (line 156). A failed file one level
  down leaves `status` false, so the note of line 125 is missing, though that
  note exists to say that files whose download failed are not properly in the
  tar (`Mirror.NestedOutcomesDiscarded`). The failed file itself is archived
  empty, because `downloadFile` creates it with `fs.createWriteStream` (line
  21) before the fetch fails (lines 38-40). Its contents are missing from
  the archive.
- Nothing catches a failed listing: there is no `try` around lines 148 or
  156. A listing that throws anywhere in the tree rejects the whole job
  through the metadata catch of lines 138-140, whose hint speaks of a link
  that is not shareable (`Pipeline.ListingFailureRejects`).
- With an index domain configured, a rejected index lookup is handed to the
  callback in the error position (line 191). The job then rejects with
  "Failed to upload ...", although the upload itself went through
  (`Pipeline.UploadFailureRejects`).
- `deleteDownloadedFile` runs only in the upload callback (line 128). A root
  with no files, a failed listing or a failed archive leaves the downloaded
  files in place (`Pipeline.DriveDownloadAndTar`, `Pipeline.TarFailureRejects`).

## Model

| member | source | states |
|---|---|---|
| `Mirror.DownloadAllFiles` | src/drive/download-file.ts:146-173 | The loop-and-recursion walk ends exactly as `Walk` says: same settlement, same `{message, status}`, same fetches in the same order. |
| `Mirror.ThrowSticks` | src/drive/download-file.ts:153-168 | Once a sub-folder walk has thrown, no later sibling is visited. The loop's outcome is the one it had at the throw. |
| `Mirror.WalkFilesReport` | src/drive/download-file.ts:153-168 | The loop never sets a message. Its status is true iff one of the files it handled directly failed to download. |
| `Mirror.WalkReport` | src/drive/download-file.ts:151-172 | A walk that returns gives "No files found inside folder" iff its own listing is empty. Its status is true iff a direct file child failed. |
| `Mirror.EmptyFolderWalk` | src/drive/download-file.ts:169-172 | An empty listing returns the no-files message, status false, and fetches nothing. |
| `Mirror.NestedOutcomesDiscarded` | src/drive/download-file.ts:156 | A failed file inside a sub-folder is fetched (to `folderPath + "sub/a.txt"`) but leaves the parent's status false. An empty sub-folder leaves the parent's message unset. |
| `Mirror.WalkFetchesFiles` | src/drive/download-file.ts:148-168 | The walk throws iff some listing in the tree fails. Its fetches are always a prefix of `Files`, the depth-first list of every file with its path. When it returns they are all of `Files`, so a failed fetch never stops the walk. |
| `Mirror.WalkFilesFetchesFiles` | src/drive/download-file.ts:153-168 | The same three facts for the loop over one listing: it throws iff a listing below fails, and its fetches are a prefix of the files under it, equal to all of them when it returns. |
| `Mirror.WalkStaysUnderFolder` | src/drive/download-file.ts:155-158 | Every fetched path starts with the walk's folder path. A walk that returns has fetched exactly `Files`, the tree's files in depth-first order, and as many as the tree has files: each file is fetched exactly once. |
| `Upload.DriveUploadFile` | src/drive/download-file.ts:179-198 | The url and folder flag pass through. An index link is reported only after a clean upload, with an index domain configured and a resolved lookup. The callback sees an error iff the uploader failed or, with an index domain, the lookup rejected with a non-empty error. |
| `Upload.IndexLookupOnlyAfterCleanUpload` | src/drive/download-file.ts:183-196 | After an upload error, or without an index domain, the lookup's outcome makes no difference. The uploader's error passes through with no index link. |
| `Upload.IndexLookupDecides` | src/drive/download-file.ts:187-192 | After a clean upload with an index domain, a resolved link is passed on with no error. A rejected lookup becomes the callback's error. |
| `Pipeline.DriveDownloadAndTar` | src/drive/download-file.ts:44-143 | Cleanup of `dlDir` happens iff the upload was started. Every resolved job has cleaned up. The upload path is the archived directory plus ".tar". An archive is only made for a folder root, under the root's name plus ".tar". |
| `Pipeline.SuccessMessageShape` | src/drive/download-file.ts:112-126 | Read back from its text, a success message has a sized link iff the size is non-zero. It has the index line iff also an index link came back and an index domain is set. It has the shared-drive note iff team drive and folder, and the degraded note iff the walk's status is set. Peeling the notes off gives back exactly the link part. |
| `Pipeline.LinkPartMentions` | src/drive/download-file.ts:112-120 | The link part contains the Drive url and the archive name, the formatted size when the size is non-zero, and the index link when it is shared. |
| `Pipeline.SuccessMessageMentions` | src/drive/download-file.ts:112-126 | A success message contains the Drive url and the archive name, and the formatted size when the size is non-zero. |
| `Pipeline.NotAFolderRejected` | src/drive/download-file.ts:71-137 | A non-folder root rejects with "Provide folder url". Nothing is fetched, archived, uploaded or cleaned up. |
| `Pipeline.MetadataFailureRejects` | src/drive/download-file.ts:138-140 | A failed metadata lookup for the root rejects with the lookup's message followed by the metadata hint. Nothing is fetched, archived, uploaded or cleaned up. |
| `Pipeline.NoFilesMessageSaysFound` | src/drive/download-file.ts:79 | The walk's no-files message passes the `includes('found')` test. |
| `Pipeline.EmptyRootRejected` | src/drive/download-file.ts:78-80 | An empty root folder rejects with the walk's message. Nothing is archived, uploaded or cleaned up. |
| `Pipeline.NonEmptyRootIsArchived` | src/drive/download-file.ts:74-90 | A fully listed, non-empty root always reaches `tar.archive(location/dlDir/name, name + ".tar")`. It has fetched every file of the tree, each under the archived directory. |
| `Pipeline.ListingFailureRejects` | src/drive/download-file.ts:138-140 | A failed listing anywhere in the tree rejects with a reason ending in the metadata hint. Only a prefix of the tree's files was fetched. Nothing is archived, uploaded or cleaned up. |
| `Pipeline.TarFailureRejects` | src/drive/download-file.ts:90-92 | An archiver error rejects with "Error while creating archive: " plus the error. No upload and no cleanup follow. |
| `Pipeline.UploadFailureRejects` | src/drive/download-file.ts:102-109 | An uploader error, or a rejected index lookup under an index domain, rejects with "Failed to upload <code>name.tar</code> to Drive. " plus the error. The upload was started and `dlDir` is cleaned up. |
| `Pipeline.CompletedJobMessage` | src/drive/download-file.ts:110-129 | With archive and upload through, the job resolves and cleans up however many files failed. Its message has the degraded note iff one of the root's own files failed, plus the size, index and shared-drive parts as above. It contains the Drive url, `name + ".tar"` and, for a non-zero size, `formatSize(size)`. |
| `Progress.DlDetails.constructor` | src/drive/download-file.ts:45-61 | The job state starts with zero counters and a zero sample timestamp. |
| `Progress.DlDetails.GetStatus` | src/drive/download-file.ts:206-221 | Reports total size, bytes uploaded and `Speed` from the previous sample. Afterwards `uploadedBytesLast` is the current counter and `lastUploadCheckTimestamp` the current time. Only those two fields change. |
| `Progress.Speed` | src/drive/download-file.ts:209-214 | Zero when no sample was taken (timestamp 0). Otherwise speed times elapsed seconds equals the bytes uploaded since the sample. It is never negative when the counter has not gone down. |
| `Progress.ReportProgress` | src/drive/download-file.ts:97-101 | Over a run of ticks from a fresh state: the first report's speed is 0. Each later report's speed is measured from the previous tick's counter and time. Every report carries the tick's counter and the total size. Only the counter and the two sampling fields change, and they end at the last tick's values; with no ticks nothing changes. |
| `Progress.SpeedsNonNegative` | src/drive/download-file.ts:212-213 | With a counter that never goes down, every reported speed is at least 0. |

## Left out

- Google Drive, stream and file-system I/O (`downloadFile` lines 16-42, `fs.existsSync`/`mkdirSync`/`createWriteStream`): a fetch is a given outcome. A stream error mid-transfer only logs and never settles `downloadFile`'s promise (lines 34-36), so the walk would wait forever; the model has no such outcome.
- `driveListFiles` is not part of this model: a listing is taken to return the children in order or to throw with a message.
- Authentication (`driveAuth.call`, lines 63-66): taken to succeed. On failure the source rejects but does not return, and carries on with an undefined client.
- Telegram message editing (`msgTools.editMessage`) and the text `updateStatus` builds (lines 200-204): output to the chat only.
- The archiver, `fsWalk.uploadRecursive`, `driveDirectLink.getGDindexLink` and `downloadUtils.deleteDownloadedFile`: black boxes; their results are given outcomes, and cleanup is recorded as the directory passed to it.
- `downloadUtils.formatSize` is a function parameter. `generateStatusMessage2` is replaced by the record of its arguments (`StatusReport`).
- Timers, randomness and clock: `setInterval`/`clearInterval` (the ticker is taken to run from the upload call to the callback, modelled by `Job.uploaded` and `Job.cleanedUp`), the 1000 ms pacing before each fetch (line 159), `uuid()` (the `dlDir` parameter) and `new Date()` (the `time` parameter).
- `Progress.Speed`: computed with exact rationals and only under `time > lastUploadCheckTimestamp` when a sample exists. JavaScript floating point, division by zero, `NaN` and `Infinity` are not modelled.
- `Progress.ReportProgress`: the uploader's counter increments are not modelled; each tick sets the counter to the sampled value before sampling.
- `Progress.DlDetails`: only the `DlVars` fields the core reads or writes are kept; the Telegram identifiers and `gid`/`downloadDir` strings are omitted.
- The second settlement after a first one (`resolve` after `reject` at lines 109 and 129) has no effect on a promise and is not represented.
