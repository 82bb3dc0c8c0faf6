# Audio watermarking: client batch workflow and segmentation arithmetic

This project models two parts of an audio-watermarking service in Dafny and proves
properties of the models.

**The browser client's batch workflow.** The client has two workflows, embed and
detect. Each keeps:
- the selected audio files;
- the results the service returned;
- an error or warning message;
- a busy flag;
- for embed only, the URL of the archive of all outputs.

The model covers:
- the audio-file test and the filtering of a pick or a drop;
- the multipart request body;
- how a submission settles: the success envelope, a non-2xx reply decoded by
  `parseApiError`, or a thrown exception;
- the reset action;
- the conditions that decide which footer, alert and warning are on screen;
- the name a retrieved file is saved under.

**The server's segmentation helpers.** A signal is padded with zeros to whole
one-second windows, cut into windows, and joined again with the padding
trimmed. The saved weight dictionary's keys have the `torch.compile` prefix
removed.

Modules:
- `Wrappers`: `Option`.
- `Text`: prefix and suffix tests, ASCII case folding, the last `.` of a name,
  decimal rendering, `join`.
- `JsonValue`: JSON values with JavaScript truthiness and `String()`.
- `Selection`: `isAudio`, the filter, and the outcomes of a pick and of a drop.
- `ApiError`: `parseApiError`.
- `Download`: the download name, and whether a retrieval saves anything.
- `Workflow`: the classes `EmbedWorkflow`, `DetectWorkflow` and `Watermarker`,
  and the loop that builds the form.
- `Inference`: pad, unfold, concatenate and trim, and key remapping.

In three places the code does something one might not expect; the model follows
the code:
- An empty pick from the file dialog still replaces the selection with nothing
  and clears results and messages. Only an empty drop leaves the workflow
  untouched.
- The submit and reset handlers have no busy guard of their own. A second
  submission is ruled out by the render conditions: while a submission runs,
  neither footer holding these buttons is shown (`SubmitFooter`,
  `RestartFooter`). A reset clears the busy flag at once.
- The outcome of a request is applied whatever has happened to the workflow
  since the request was sent. Nothing checks that the request is still the
  current one.

The network, `JSON.stringify` and the message of a JavaScript `TypeError` are
inputs to the model:
- A submission settles with an `Outcome`.
- A retrieval produces a `Fetched` value.
- `Runtime` supplies the stringifier and the `TypeError` text.

## Model

| member | source | states |
|---|---|---|
| `Selection.IsAudioByExtension` | frontend/src/components/AudioWatermarker.tsx:52-53 | a file is accepted iff its MIME type starts with `audio/`, or the text after the last `.` of its name, lower-cased, is one of wav, flac, mp3, ogg, opus, m4a |
| `Selection.HasAudioSuffixByLastDot` | frontend/src/components/AudioWatermarker.tsx:53 | the case-insensitive anchored pattern matches iff the name has a `.` and the lower-cased text after the last one is an audio extension |
| `Selection.UpperCaseExtensionAccepted` | frontend/src/components/AudioWatermarker.tsx:53 | `TRACK.WAV` with no MIME type is accepted: letter case is ignored |
| `Selection.DocumentRejected` | frontend/src/components/AudioWatermarker.tsx:52-53 | `report.docx` of type `application/msword` is rejected |
| `Selection.ExtensionRejected` | frontend/src/components/AudioWatermarker.tsx:52-53 | a file without an audio MIME type whose extension is not in the list is rejected |
| `Selection.Accepted` | frontend/src/components/AudioWatermarker.tsx:85-87 | the filter keeps every audio file of the list and only those, and is never longer than the list |
| `Selection.AcceptedAppend` | frontend/src/components/AudioWatermarker.tsx:86 | the filter distributes over concatenation, so the order of the files is kept |
| `Selection.NoneAcceptedIffAllRejected` | frontend/src/components/AudioWatermarker.tsx:93 | nothing is accepted iff every file is non-audio |
| `Selection.RejectedIffNonAudio` | frontend/src/components/AudioWatermarker.tsx:89-91 | the rejected count is positive iff some file is non-audio |
| `Selection.PickerSelection` | frontend/src/components/AudioWatermarker.tsx:85-93 | a pick selects the accepted files; the "No audio files found" warning appears iff the pick was non-empty and held no audio file |
| `Selection.DropSelection` | frontend/src/components/AudioWatermarker.tsx:117-150 | an empty drop changes nothing; any other drop selects the accepted files; the "Invalid file type(s)" warning appears iff no dropped file is audio |
| `ApiError.FormatEntries` | frontend/src/components/AudioWatermarker.tsx:189 | the `map` over the error list gives one `<loc>: <msg>` text per entry, in order, or throws iff some entry throws |
| `ApiError.ParseApiError` | frontend/src/components/AudioWatermarker.tsx:182-199 | a string detail is the message; a list whose first entry has a `msg` is joined with `, ` unless an entry throws; any other truthy detail is stringified; in each of these cases, and when there is no detail, a message equal to `HTTP error! status: <code>` is replaced by the stringified payload when the payload is an object; the decoder throws iff the list passes the first-entry guard and some entry throws |
| `ApiError.ValidationErrorExample` | frontend/src/components/AudioWatermarker.tsx:189 | a 422 body with `loc ["body","files",0]` and `msg "Unsupported format"` yields `body.files.0: Unsupported format` |
| `ApiError.FallbackLookalikeReplaced` | frontend/src/components/AudioWatermarker.tsx:189-196 | a list joining to `HTTP error! status: 500` under status 500 yields the stringified payload |
| `ApiError.NullLaterEntryThrows` | frontend/src/components/AudioWatermarker.tsx:187-189 | a list whose second entry is `null` passes the first-entry guard and makes the decoder throw |
| `Download.DownloadName` | frontend/src/components/AudioWatermarker.tsx:306-309 | the saved name is the original name, or three characters longer |
| `Download.DownloadNameMatchesPattern` | frontend/src/components/AudioWatermarker.tsx:307-309 | a name ending in `.zip` is kept; otherwise `_wm` is inserted exactly where `(\.[^.]+)$` matches; a name the pattern does not match is kept |
| `Download.MarkerIsRemovable` | frontend/src/components/AudioWatermarker.tsx:309 | the marked name still ends in the original extension, and removing `_wm` gives the original name back |
| `Download.DownloadNameExamples` | frontend/src/components/AudioWatermarker.tsx:307-309 | `track.wav` becomes `track_wm.wav`, `a.b.wav` becomes `a.b_wm.wav`; `bundle.zip`, `README` and `take.` are kept |
| `Download.HandleDownload` | frontend/src/components/AudioWatermarker.tsx:297-320 | a file is saved iff the reply is 2xx, with exactly the reply's bytes, under the derived name |
| `Workflow.BuildForm` | frontend/src/components/AudioWatermarker.tsx:208-211 | the body has one `files` part per selected file, in order, named by its relative path, or by its name when that path is empty |
| `Workflow.EmbedWorkflow.constructor` | frontend/src/components/AudioWatermarker.tsx:62-66 | the embed workflow starts with no files, no results, no archive URL, no error and not busy |
| `Workflow.EmbedWorkflow.HandleFileChange` | frontend/src/components/AudioWatermarker.tsx:81-107 | a pick replaces the files by the accepted ones, clears results and archive URL, and sets the warning; a warning lands in the drop zone, not in the alert; a pick holding an audio file, made while idle, offers the submit footer; only audio files are ever selected |
| `Workflow.EmbedWorkflow.HandleDrop` | frontend/src/components/AudioWatermarker.tsx:109-151 | an empty drop leaves the workflow unchanged; any other drop does what a pick does, with the drop's warning shown in the drop zone; a drop holding an audio file, made while idle, offers the submit footer |
| `Workflow.EmbedWorkflow.Submit` | frontend/src/components/AudioWatermarker.tsx:201-211 | with no files nothing happens and no request is sent; otherwise the workflow becomes busy with error, results and archive URL cleared, the body is built from the files, and neither footer, so no second submit button, is on screen |
| `Workflow.EmbedWorkflow.Settle` | frontend/src/components/AudioWatermarker.tsx:213-246 | afterwards the workflow is not busy; on success the results and archive URL are the service's, "Download All" is offered iff the list is non-empty and the archive URL is non-empty, and a non-empty list shows the restart footer and no alert; otherwise the error is the decoded body, the thrown message, or the fixed unknown-error text, and after a request it is shown in the alert (files being selected) beside the restart footer |
| `Workflow.EmbedWorkflow.Reset` | frontend/src/components/AudioWatermarker.tsx:322-330 | every field returns to its initial value, busy or not, and no footer, alert, warning or bulk download is shown |
| `Workflow.RestartFooter` | frontend/src/components/AudioWatermarker.tsx:552-565 | the "Reset & Start Over" footer is never shown while a submission runs, nor beside the submit footer (the same conditions hold for detect at lines 650-663) |
| `Workflow.DropZoneWarning` | frontend/src/components/AudioWatermarker.tsx:341-345 | while an error is set and no results are listed, it is shown in the drop-zone warning iff it is not shown in the alert of lines 430-440; the drop-zone warning needs an empty selection |
| `Workflow.DetectWorkflow.constructor` | frontend/src/components/AudioWatermarker.tsx:71-74 | the detect workflow starts with no files, no results, no error and not busy |
| `Workflow.DetectWorkflow.HandleFileChange` | frontend/src/components/AudioWatermarker.tsx:100-104 | a pick replaces the files by the accepted ones, clears the results and sets the warning, shown in the drop zone; a pick holding an audio file, made while idle, offers the submit footer |
| `Workflow.DetectWorkflow.HandleDrop` | frontend/src/components/AudioWatermarker.tsx:127-150 | an empty drop leaves the workflow unchanged; any other drop selects the accepted files with the drop's warning, shown in the drop zone; a drop holding an audio file, made while idle, offers the submit footer |
| `Workflow.DetectWorkflow.Submit` | frontend/src/components/AudioWatermarker.tsx:249-258 | with no files nothing happens; otherwise the workflow becomes busy with error and results cleared, and the body is built from the files |
| `Workflow.DetectWorkflow.Settle` | frontend/src/components/AudioWatermarker.tsx:260-293 | afterwards the workflow is not busy; a 2xx body lists its `results`, or nothing when `results` is not an array; a failure sets the decoded or thrown message, shown in the alert beside the restart footer; listed results show the restart footer and no alert |
| `Workflow.DetectWorkflow.Reset` | frontend/src/components/AudioWatermarker.tsx:331-338 | every field returns to its initial value, and no footer, alert or warning is shown |
| `Workflow.Watermarker.constructor` | frontend/src/components/AudioWatermarker.tsx:55-76 | the component starts with two fresh, separate workflows in their initial state |
| `Workflow.Watermarker.HandleFileChange` | frontend/src/components/AudioWatermarker.tsx:95-104 | a pick sets the chosen workflow's files to the accepted ones and its error to the pick's warning, clears its results (and archive URL), keeps its busy flag, and leaves the other workflow unchanged |
| `Workflow.Watermarker.HandleDrop` | frontend/src/components/AudioWatermarker.tsx:127-149 | an empty drop changes neither workflow; any other drop sets the chosen workflow's files and error from the drop, clears its results (and archive URL), keeps its busy flag, and leaves the other workflow unchanged |
| `Workflow.Watermarker.ResetState` | frontend/src/components/AudioWatermarker.tsx:322-339 | a reset clears the chosen workflow and leaves the other as it was |
| `Inference.PadBounds` | server/app/core/inference.py:53 | the pad is less than the window length, the padded length is a multiple of it, and the pad is 0 iff the length already is a multiple |
| `Inference.SplitIntoSegments` | server/app/core/inference.py:48-62 | splitting fails iff the signal is empty |
| `Inference.SegmentsShape` | server/app/core/inference.py:52-58 | a non-empty signal is padded with zeros at its end only, by the pad that is returned, and the padded signal is unfolded |
| `Inference.Unfold` | server/app/core/inference.py:57-58 | unfolding with step equal to the window length yields windows of exactly that length |
| `Inference.UnfoldLength` | server/app/core/inference.py:58 | a signal of q whole windows unfolds into exactly q windows |
| `Inference.WindowAt` | server/app/core/inference.py:58 | window k is samples `[k*size, k*size+size)` whenever the signal reaches that far |
| `Inference.Windows` | server/app/core/inference.py:57-61 | a signal of q whole windows unfolds into q windows, window k being samples `[k*segLen, k*segLen+segLen)` |
| `Inference.SplitWindows` | server/app/core/inference.py:50-61 | splitting yields `(T+pad)/segLen` windows, window k being samples `[k*segLen, k*segLen+segLen)` of the padded signal |
| `Inference.ConcatUnfold` | server/app/core/inference.py:57-67 | joining the windows of a signal of whole windows gives the signal back |
| `Inference.ConcatAndTrim` | server/app/core/inference.py:66-68 | joining fails iff there are no windows; with pad 0 the result is the plain concatenation; otherwise it is the concatenation without its last `pad` samples, or empty when `pad` exceeds it |
| `Inference.RoundTrip` | server/app/core/inference.py:48-68 | splitting a non-empty signal and joining its windows with the returned pad gives back exactly the signal |
| `Inference.RemovePrefix` | server/app/core/inference.py:24 | a key that starts with the prefix loses exactly that prefix; any other key is unchanged |
| `Inference.RemovePrefixOnce` | server/app/core/inference.py:17-24 | at most one leading `_orig_mod.` is removed; a key containing `.block.` is not renamed |
| `Inference.Remap` | server/app/core/inference.py:21-26 | every remapped key is present and nothing else is; the value under a key is the one of the last item that maps to it |

## Left out

- The JSX layout, tabs, the folder/file mode switch and the drag-highlight
  handlers are presentation. They change no workflow state.
- The browser download mechanics are left out: object URL, anchor element and
  click. `HandleDownload` returns the file that would be saved.
- The API base URL and how request URLs are built are configuration. They
  appear in no contract.
- Console logging and the formatting of the numeric result columns on screen
  are left out.
- The asynchronous interleaving of a request is modelled as two steps,
  `Submit` and `Settle`. Any handler may run between them. Cancellation does
  not exist in the source.
- The two cases of `event.target.files` are merged: a missing file list and an
  empty one give the same state in the code, so both are the empty sequence.
- The DOM side effect of clearing an `<input>` value is not modelled.
- JSON numbers are integers. Error bodies only carry integral indices.
- `JsonValue.ToJsString` renders every integer in plain decimal. JavaScript writes
  numbers of magnitude 1e21 and above in exponent form (`1e+21`), which is not modelled.
- `Workflow.EmbedWorkflow.Settle` receives the embed success body with its
  `results` already a list. The code stores `successData.results` without the
  `Array.isArray` check that detect makes, so a malformed embed body is not modelled.
- `JSON.stringify` and the `TypeError` message are inputs (`Runtime`), not
  definitions.
- `ApiError.ParseApiError`: a `JSON.stringify` that itself throws is not
  modelled. The stringifier is a total function, so the `catch` branches are
  never taken.
- The batch and channel dimensions of the tensors are left out. Only the time
  axis is modelled, as a sequence, with `zero` as its padding value.
- `permute` and `contiguous` only reorder dimensions, so they are not modelled.
- `Inference.Remap` takes the dictionary's items as a sequence in Python's
  iteration order.
- The neural-network calls of `embed_audio` and `detect_audio` are left out:
  random message bits, sigmoid, mean and the float threshold. So are the SI-SNR
  metric and model loading. These are floating-point tensor numerics and
  process wiring.
- `server/app/api`, `settings.py`, `main.py` and `testing/1.py` are not part of
  this model.
