/** The two client workflows, embed and detect. Each holds the selected files, the
    results, an error message and a busy flag (embed also the archive URL), and is
    changed by the picker, drop, submit, settle and reset handlers. The network is
    an input: a submission settles with an `Outcome`. */
module Workflow {
  import opened Wrappers
  import opened JsonValue
  import opened Selection
  import opened ApiError

  /** One embedded file as the service lists it. */
  datatype EmbedItem = EmbedItem(filename: string, downloadUrl: string, rms: real, siSnr: real)

  /** One examined file as the service lists it; the verdict is the service's. */
  datatype DetectItem = DetectItem(filename: string, probability: real, isWatermarked: bool)

  /** The 2xx body of `POST /embed/folder`. */
  datatype EmbedEnvelope = EmbedEnvelope(results: seq<EmbedItem>, zipDownloadUrl: Option<string>)

  /** The 2xx body of `POST /detect/folder`: `None` when its `results` is not an array. */
  datatype DetectEnvelope = DetectEnvelope(results: Option<seq<DetectItem>>)

  /** What a failed `fetch`/`res.json()` threw: an `Error` with its message, or
      something else. */
  datatype Thrown = ErrorObject(message: string) | NonError

  /** How a submission settles: a reply whose `ok` flag is set, with its decoded
      envelope; a reply with a status outside 200-299 and its JSON body; or an
      exception (no reply, or a body that is not JSON). */
  datatype Outcome<E> = Ok(envelope: E) | NotOk(status: nat, payload: Json) | Threw(thrown: Thrown)

  /** Parts of the JavaScript engine the model does not define: `JSON.stringify`
      and the message of the `TypeError` raised while reading a malformed error list. */
  datatype Runtime = Runtime(stringify: Json -> string, typeErrorMessage: string)

  const FilesField := "files"
  const UnknownEmbedFailure := "An unknown error occurred during embedding."
  const UnknownDetectFailure := "An unknown error occurred during detection."

  /** One `form.append(field, file, filename)`. */
  datatype FormPart = FormPart(field: string, file: File, filename: string)

  /** `file.webkitRelativePath || file.name`. */
  function EntryName(f: File): string {
    if f.relativePath != "" then f.relativePath else f.name
  }

  /** Every file attached under `files`, named by its entry name, in selection order. */
  ghost predicate IsFormFor(form: seq<FormPart>, files: seq<File>) {
    |form| == |files| &&
    forall i :: 0 <= i < |files| ==> form[i] == FormPart(FilesField, files[i], EntryName(files[i]))
  }

  /** The `forEach` that fills the multipart body. */
  method BuildForm(files: seq<File>) returns (form: seq<FormPart>)
    ensures IsFormFor(form, files)
  {
    form := [];
    for i := 0 to |files|
      invariant |form| == i
      invariant forall k :: 0 <= k < i ==> form[k] == FormPart(FilesField, files[k], EntryName(files[k]))
    {
      form := form + [FormPart(FilesField, files[i], EntryName(files[i]))];
    }
  }

  /** The message a failed submission stores: the decoded error body, the message
      of what was thrown, or the fixed text for a non-`Error` throw. */
  function FailureMessage<E>(o: Outcome<E>, rt: Runtime, unknownText: string): string
    requires !o.Ok?
  {
    match o
    case NotOk(status, payload) =>
      (match ParseApiError(payload, status, rt.stringify)
       case Decoded(m) => m
       case DecoderThrew => rt.typeErrorMessage)
    case Threw(ErrorObject(m)) => m
    case Threw(NonError) => unknownText
  }

  /** JavaScript truthiness of a `string | null` cell. */
  predicate Shown(e: Option<string>) {
    e.Some? && e.value != ""
  }

  /** The two messages a selection handler writes. */
  predicate IsSelectionWarning(e: string) {
    e == NoAudioFound || e == InvalidDropped
  }

  // The render conditions, stated once over a workflow's cells; both workflow
  // classes show them through their `Show...` functions.

  /** The footer holding "Reset Selection" and the enabled submit button. */
  predicate SubmitFooter(nFiles: nat, nResults: nat, error: Option<string>, busy: bool) {
    nFiles > 0 && !busy && nResults == 0 && !Shown(error)
  }

  /** The footer holding "Reset & Start Over": never shown beside the submit footer,
      and, like it, never while a submission runs. */
  function RestartFooter(nFiles: nat, nResults: nat, error: Option<string>, busy: bool): (b: bool)
    ensures b ==> !busy && !SubmitFooter(nFiles, nResults, error, busy)
  {
    (nResults > 0 || (Shown(error) && nFiles > 0)) && !busy
  }

  /** `renderErrorAlert`: no alert while results are listed, and a selection warning
      with no files selected is left to the drop zone. */
  predicate ErrorAlert(nFiles: nat, nResults: nat, error: Option<string>) {
    Shown(error) && nResults == 0 && !(IsSelectionWarning(error.value) && nFiles == 0)
  }

  /** The warning inside the drop zone; while no results are listed, every error
      is shown either here or in the alert, never both. */
  function DropZoneWarning(nFiles: nat, nResults: nat, error: Option<string>): (b: bool)
    ensures Shown(error) && nResults == 0 ==> (b <==> !ErrorAlert(nFiles, nResults, error))
    ensures b ==> error.Some? && nFiles == 0
  {
    error.Some? && IsSelectionWarning(error.value) && nFiles == 0
  }

  class EmbedWorkflow {
    var files: seq<File>
    var results: seq<EmbedItem>
    var zipUrl: Option<string>
    var error: Option<string>
    var busy: bool

    /** Only audio files are ever selected, and a running submission has nothing
        to show yet. */
    ghost predicate Valid()
      reads this
    {
      (forall f :: f in files ==> IsAudio(f)) &&
      (busy ==> results == [] && zipUrl.None?)
    }

    constructor ()
      ensures Valid()
      ensures files == [] && results == [] && zipUrl == None && error == None && !busy
    {
      files, results, zipUrl, error, busy := [], [], None, None, false;
    }

    /** `handleFileChange(event, 'embed')`. */
    method HandleFileChange(picked: seq<File>)
      requires Valid()
      modifies this
      ensures Valid()
      ensures files == PickerSelection(picked).files && error == PickerSelection(picked).warning
      ensures results == [] && zipUrl == None && busy == old(busy)
      ensures error.Some? ==> ShowDropZoneWarning() && !ShowErrorAlert()
      ensures !busy && (exists f :: f in picked && IsAudio(f)) ==> ShowSubmitFooter()
    {
      var chosen := PickerSelection(picked);
      files := chosen.files;
      results := [];
      zipUrl := None;
      error := chosen.warning;
    }

    /** `handleDrop(event, 'embed')`. */
    method HandleDrop(dropped: seq<File>)
      requires Valid()
      modifies this
      ensures Valid()
      ensures dropped == [] ==> unchanged(this)
      ensures dropped != [] ==>
                files == DropSelection(dropped).value.files &&
                error == DropSelection(dropped).value.warning &&
                results == [] && zipUrl == None && busy == old(busy)
      ensures dropped != [] && error.Some? ==> ShowDropZoneWarning() && !ShowErrorAlert()
      ensures !busy && (exists f :: f in dropped && IsAudio(f)) ==> ShowSubmitFooter()
    {
      var chosen := DropSelection(dropped);
      if chosen.Some? {
        files := chosen.value.files;
        results := [];
        zipUrl := None;
        error := chosen.value.warning;
      }
    }

    /** The start of `handleEmbedFolder`: with no files nothing happens; otherwise
        the workflow becomes busy, earlier outcomes are cleared and the request
        body is built. */
    method Submit() returns (form: Option<seq<FormPart>>)
      requires Valid()
      modifies this
      ensures Valid()
      ensures old(files) == [] ==> form == None && unchanged(this)
      ensures old(files) != [] ==> form.Some? && IsFormFor(form.value, files)
      ensures old(files) != [] ==> busy && error == None && results == [] && zipUrl == None
      ensures files == old(files)
      ensures form.Some? ==> !ShowSubmitFooter() && !ShowRestartFooter()
    {
      if |files| == 0 {
        return None;
      }
      busy := true;
      error := None;
      results := [];
      zipUrl := None;
      var parts := BuildForm(files);
      form := Some(parts);
    }

    /** The rest of `handleEmbedFolder`, once the request settles: the service's
        list and archive URL on success, a message otherwise; never busy after. */
    method Settle(outcome: Outcome<EmbedEnvelope>, rt: Runtime)
      requires Valid()
      modifies this
      ensures Valid()
      ensures !busy && files == old(files)
      ensures outcome.Ok? ==>
                results == outcome.envelope.results &&
                zipUrl == outcome.envelope.zipDownloadUrl &&
                error == old(error)
      ensures !outcome.Ok? ==>
                error == Some(FailureMessage(outcome, rt, UnknownEmbedFailure)) &&
                results == old(results) && zipUrl == old(zipUrl)
      ensures !outcome.Ok? && old(busy) ==> results == [] && zipUrl == None
      ensures outcome.Ok? ==>
                (ShowBulkDownload() <==>
                   |outcome.envelope.results| > 0 && Shown(outcome.envelope.zipDownloadUrl))
      ensures outcome.Ok? && |outcome.envelope.results| > 0 ==>
                ShowRestartFooter() && !ShowSubmitFooter() && !ShowErrorAlert()
      ensures !outcome.Ok? && old(busy) && Shown(error) && |files| > 0 ==>
                ShowErrorAlert() && !ShowDropZoneWarning() && ShowRestartFooter()
    {
      match outcome {
        case Ok(envelope) =>
          results := envelope.results;
          zipUrl := envelope.zipDownloadUrl;
        case _ =>
          error := Some(FailureMessage(outcome, rt, UnknownEmbedFailure));
      }
      busy := false;
    }

    /** `resetState('embed')`: back to the initial state, whatever the busy flag. */
    method Reset()
      modifies this
      ensures Valid()
      ensures files == [] && results == [] && zipUrl == None && error == None && !busy
      ensures !ShowSubmitFooter() && !ShowRestartFooter() && !ShowErrorAlert()
      ensures !ShowDropZoneWarning() && !ShowBulkDownload()
    {
      files, results, zipUrl, error, busy := [], [], None, None, false;
    }

    predicate ShowSubmitFooter()
      reads this
    {
      SubmitFooter(|files|, |results|, error, busy)
    }

    predicate ShowRestartFooter()
      reads this
    {
      RestartFooter(|files|, |results|, error, busy)
    }

    predicate ShowErrorAlert()
      reads this
    {
      ErrorAlert(|files|, |results|, error)
    }

    predicate ShowDropZoneWarning()
      reads this
    {
      DropZoneWarning(|files|, |results|, error)
    }

    /** "Download All": results listed, no submission running, a non-empty archive URL. */
    predicate ShowBulkDownload()
      reads this
    {
      |results| > 0 && !busy && Shown(zipUrl)
    }
  }

  class DetectWorkflow {
    var files: seq<File>
    var results: seq<DetectItem>
    var error: Option<string>
    var busy: bool

    /** Only audio files are ever selected, and a running submission has nothing
        to show yet. */
    ghost predicate Valid()
      reads this
    {
      (forall f :: f in files ==> IsAudio(f)) &&
      (busy ==> results == [])
    }

    constructor ()
      ensures Valid()
      ensures files == [] && results == [] && error == None && !busy
    {
      files, results, error, busy := [], [], None, false;
    }

    /** `handleFileChange(event, 'detect')`. */
    method HandleFileChange(picked: seq<File>)
      requires Valid()
      modifies this
      ensures Valid()
      ensures files == PickerSelection(picked).files && error == PickerSelection(picked).warning
      ensures results == [] && busy == old(busy)
      ensures error.Some? ==> ShowDropZoneWarning() && !ShowErrorAlert()
      ensures !busy && (exists f :: f in picked && IsAudio(f)) ==> ShowSubmitFooter()
    {
      var chosen := PickerSelection(picked);
      files := chosen.files;
      results := [];
      error := chosen.warning;
    }

    /** `handleDrop(event, 'detect')`. */
    method HandleDrop(dropped: seq<File>)
      requires Valid()
      modifies this
      ensures Valid()
      ensures dropped == [] ==> unchanged(this)
      ensures dropped != [] ==>
                files == DropSelection(dropped).value.files &&
                error == DropSelection(dropped).value.warning &&
                results == [] && busy == old(busy)
      ensures dropped != [] && error.Some? ==> ShowDropZoneWarning() && !ShowErrorAlert()
      ensures !busy && (exists f :: f in dropped && IsAudio(f)) ==> ShowSubmitFooter()
    {
      var chosen := DropSelection(dropped);
      if chosen.Some? {
        files := chosen.value.files;
        results := [];
        error := chosen.value.warning;
      }
    }

    /** The start of `handleDetectFolder`. */
    method Submit() returns (form: Option<seq<FormPart>>)
      requires Valid()
      modifies this
      ensures Valid()
      ensures old(files) == [] ==> form == None && unchanged(this)
      ensures old(files) != [] ==> form.Some? && IsFormFor(form.value, files)
      ensures old(files) != [] ==> busy && error == None && results == []
      ensures files == old(files)
      ensures form.Some? ==> !ShowSubmitFooter() && !ShowRestartFooter()
    {
      if |files| == 0 {
        return None;
      }
      busy := true;
      error := None;
      results := [];
      var parts := BuildForm(files);
      form := Some(parts);
    }

    /** The rest of `handleDetectFolder`: a 2xx body whose `results` is not an
        array lists nothing. */
    method Settle(outcome: Outcome<DetectEnvelope>, rt: Runtime)
      requires Valid()
      modifies this
      ensures Valid()
      ensures !busy && files == old(files)
      ensures outcome.Ok? && outcome.envelope.results.Some? ==>
                results == outcome.envelope.results.value && error == old(error)
      ensures outcome.Ok? && outcome.envelope.results.None? ==>
                results == [] && error == old(error)
      ensures !outcome.Ok? ==>
                error == Some(FailureMessage(outcome, rt, UnknownDetectFailure)) &&
                results == old(results)
      ensures !outcome.Ok? && old(busy) ==> results == []
      ensures |results| > 0 ==> ShowRestartFooter() && !ShowSubmitFooter() && !ShowErrorAlert()
      ensures !outcome.Ok? && old(busy) && Shown(error) && |files| > 0 ==>
                ShowErrorAlert() && !ShowDropZoneWarning() && ShowRestartFooter()
    {
      match outcome {
        case Ok(envelope) =>
          results := if envelope.results.Some? then envelope.results.value else [];
        case _ =>
          error := Some(FailureMessage(outcome, rt, UnknownDetectFailure));
      }
      busy := false;
    }

    /** `resetState('detect')`. */
    method Reset()
      modifies this
      ensures Valid()
      ensures files == [] && results == [] && error == None && !busy
      ensures !ShowSubmitFooter() && !ShowRestartFooter() && !ShowErrorAlert() && !ShowDropZoneWarning()
    {
      files, results, error, busy := [], [], None, false;
    }

    predicate ShowSubmitFooter()
      reads this
    {
      SubmitFooter(|files|, |results|, error, busy)
    }

    predicate ShowRestartFooter()
      reads this
    {
      RestartFooter(|files|, |results|, error, busy)
    }

    predicate ShowErrorAlert()
      reads this
    {
      ErrorAlert(|files|, |results|, error)
    }

    predicate ShowDropZoneWarning()
      reads this
    {
      DropZoneWarning(|files|, |results|, error)
    }
  }

  datatype Kind = Embed | Detect

  /** The component: one embed and one detect workflow, which share nothing. The
      handlers that take the workflow kind change that workflow only. */
  class Watermarker {
    const embed: EmbedWorkflow
    const detect: DetectWorkflow

    ghost predicate Valid()
      reads this, embed, detect
    {
      embed.Valid() && detect.Valid()
    }

    constructor ()
      ensures Valid() && fresh(embed) && fresh(detect)
      ensures embed.files == [] && embed.results == [] && embed.zipUrl == None
      ensures embed.error == None && !embed.busy
      ensures detect.files == [] && detect.results == [] && detect.error == None && !detect.busy
    {
      embed := new EmbedWorkflow();
      detect := new DetectWorkflow();
    }

    /** `handleFileChange(event, type)`. */
    method HandleFileChange(kind: Kind, picked: seq<File>)
      requires Valid()
      modifies embed, detect
      ensures Valid()
      ensures kind == Embed ==>
                unchanged(detect) &&
                embed.files == PickerSelection(picked).files &&
                embed.error == PickerSelection(picked).warning &&
                embed.results == [] && embed.zipUrl == None && embed.busy == old(embed.busy)
      ensures kind == Detect ==>
                unchanged(embed) &&
                detect.files == PickerSelection(picked).files &&
                detect.error == PickerSelection(picked).warning &&
                detect.results == [] && detect.busy == old(detect.busy)
    {
      if kind == Embed {
        embed.HandleFileChange(picked);
      } else {
        detect.HandleFileChange(picked);
      }
    }

    /** `handleDrop(event, type)`. */
    method HandleDrop(kind: Kind, dropped: seq<File>)
      requires Valid()
      modifies embed, detect
      ensures Valid()
      ensures dropped == [] ==> unchanged(embed) && unchanged(detect)
      ensures kind == Embed ==> unchanged(detect)
      ensures kind == Embed && dropped != [] ==>
                embed.files == DropSelection(dropped).value.files &&
                embed.error == DropSelection(dropped).value.warning &&
                embed.results == [] && embed.zipUrl == None && embed.busy == old(embed.busy)
      ensures kind == Detect ==> unchanged(embed)
      ensures kind == Detect && dropped != [] ==>
                detect.files == DropSelection(dropped).value.files &&
                detect.error == DropSelection(dropped).value.warning &&
                detect.results == [] && detect.busy == old(detect.busy)
    {
      if kind == Embed {
        embed.HandleDrop(dropped);
      } else {
        detect.HandleDrop(dropped);
      }
    }

    /** `resetState(type)`: clears the chosen workflow and leaves the other as it was. */
    method ResetState(kind: Kind)
      requires Valid()
      modifies embed, detect
      ensures Valid()
      ensures kind == Embed ==>
                unchanged(detect) && embed.files == [] && embed.results == [] &&
                embed.zipUrl == None && embed.error == None && !embed.busy
      ensures kind == Detect ==>
                unchanged(embed) && detect.files == [] && detect.results == [] &&
                detect.error == None && !detect.busy
    {
      if kind == Embed {
        embed.Reset();
      } else {
        detect.Reset();
      }
    }
  }
}
