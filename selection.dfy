/** The selection validator of the client (`isAudio` and the filtering done by the
    picker and drop handlers) and the selection outcome each handler applies. */
module Selection {
  import opened Wrappers
  import opened Text

  /** A picked or dropped file: its name, its declared MIME type, its path relative
      to a picked directory ("" outside directory mode) and an opaque handle to its
      bytes. */
  datatype File = File(name: string, mimeType: string, relativePath: string, handle: nat)

  const AudioMimePrefix := "audio/"
  const AudioExtensions: set<string> := {"wav", "flac", "mp3", "ogg", "opus", "m4a"}

  const NoAudioFound := "No audio files found. Please select audio files."
  const InvalidDropped := "Invalid file type(s). Please drop audio files."

  predicate IsAudioExtension(e: string) {
    e in AudioExtensions
  }

  /** The pattern `\.(wav|flac|mp3|ogg|opus|m4a)$` with the `i` flag. */
  predicate HasAudioSuffix(name: string) {
    exists e :: e in AudioExtensions && EndsWith(Lower(name), "." + e)
  }

  /** `isAudio`: an audio MIME type, or an audio extension in any letter case. */
  predicate IsAudio(f: File) {
    StartsWith(f.mimeType, AudioMimePrefix) || HasAudioSuffix(f.name)
  }

  lemma ExtensionsHaveNoDot(e: string)
    requires IsAudioExtension(e)
    ensures forall j :: 0 <= j < |e| ==> e[j] != '.'
  {
  }

  lemma LowerKeepsDots(c: char)
    ensures LowerChar(c) == '.' <==> c == '.'
  {
  }

  lemma LowerSuffix(s: string, p: nat)
    requires p <= |s|
    ensures Lower(s[p..]) == Lower(s)[p..]
  {
  }

  /** A name whose lower-cased form ends in ".e", with no '.' in `e`, has a '.' just
      before `e` and none after it. */
  lemma DotBeforeSuffix(name: string, e: string)
    requires forall j :: 0 <= j < |e| ==> e[j] != '.'
    requires EndsWith(Lower(name), "." + e)
    ensures name[|name| - |e| - 1] == '.'
    ensures forall j :: |name| - |e| - 1 < j < |name| ==> name[j] != '.'
    ensures Lower(name[|name| - |e|..]) == e
  {
    var low := Lower(name);
    var p := |name| - |e| - 1;
    assert low[p..] == "." + e;
    assert low[p] == '.';
    LowerKeepsDots(name[p]);
    forall j | p < j < |name| ensures name[j] != '.' {
      assert low[j] == e[j - p - 1];
      LowerKeepsDots(name[j]);
    }
    LowerSuffix(name, p + 1);
  }

  lemma LastDotGivesSuffix(name: string, p: nat)
    requires p < |name| && name[p] == '.'
    ensures EndsWith(Lower(name), "." + Lower(name[p + 1..]))
  {
    LowerSuffix(name, p + 1);
    assert Lower(name)[p..] == "." + Lower(name[p + 1..]);
  }

  /** The suffix test is the same as looking at the text after the last '.'. */
  lemma HasAudioSuffixByLastDot(name: string)
    ensures HasAudioSuffix(name) <==>
              (LastDot(name).Some? && IsAudioExtension(Lower(name[LastDot(name).value + 1..])))
  {
    if HasAudioSuffix(name) {
      var e :| IsAudioExtension(e) && EndsWith(Lower(name), "." + e);
      ExtensionsHaveNoDot(e);
      DotBeforeSuffix(name, e);
      LastDotUnique(name, |name| - |e| - 1);
    } else if LastDot(name).Some? {
      LastDotGivesSuffix(name, LastDot(name).value);
    }
  }

  /** `isAudio` as the documented rule: an audio MIME type, or an extension from the
      list after the last '.', compared case-insensitively. */
  lemma IsAudioByExtension(f: File)
    ensures IsAudio(f) <==>
              StartsWith(f.mimeType, AudioMimePrefix) ||
              (LastDot(f.name).Some? && IsAudioExtension(Lower(f.name[LastDot(f.name).value + 1..])))
  {
    HasAudioSuffixByLastDot(f.name);
  }

  /** `Array.from(list).filter(isAudio)`. */
  function Accepted(fs: seq<File>): (r: seq<File>)
    ensures |r| <= |fs|
    ensures forall f :: f in r ==> f in fs && IsAudio(f)
    ensures forall f :: f in fs && IsAudio(f) ==> f in r
  {
    if fs == [] then [] else (if IsAudio(fs[0]) then [fs[0]] else []) + Accepted(fs[1..])
  }

  /** Filtering keeps the relative order: it distributes over concatenation. */
  lemma {:induction false} AcceptedAppend(a: seq<File>, b: seq<File>)
    ensures Accepted(a + b) == Accepted(a) + Accepted(b)
  {
    if a == [] {
      assert a + b == b;
    } else {
      assert (a + b)[1..] == a[1..] + b;
      AcceptedAppend(a[1..], b);
    }
  }

  /** Nothing is accepted exactly when every file is rejected. */
  lemma NoneAcceptedIffAllRejected(fs: seq<File>)
    ensures |Accepted(fs)| == 0 <==> forall f :: f in fs ==> !IsAudio(f)
  {
    if |Accepted(fs)| > 0 {
      assert Accepted(fs)[0] in Accepted(fs);
    }
  }

  /** Some file is rejected exactly when some file is not audio. */
  lemma {:induction false} RejectedIffNonAudio(fs: seq<File>)
    ensures |Accepted(fs)| < |fs| <==> exists f :: f in fs && !IsAudio(f)
  {
    if fs != [] {
      RejectedIffNonAudio(fs[1..]);
      assert forall f :: f in fs[1..] ==> f in fs;
      if !IsAudio(fs[0]) {
        assert fs[0] in fs;
      } else if exists f :: f in fs && !IsAudio(f) {
        var f :| f in fs && !IsAudio(f);
        assert f in fs[1..];
      }
    }
  }

  /** What a handler writes to the workflow: the new file list and the message
      (`None` clears a previous one). */
  datatype Chosen = Chosen(files: seq<File>, warning: Option<string>)

  /** `handleFileChange`: every pick, including an empty one, replaces the selection.
      The warning appears iff the pick was not empty and held no audio file. */
  function PickerSelection(picked: seq<File>): (c: Chosen)
    ensures c.files == Accepted(picked)
    ensures c.warning.Some? <==> picked != [] && forall f :: f in picked ==> !IsAudio(f)
    ensures c.warning.Some? ==> c.warning.value == NoAudioFound
  {
    var accepted := Accepted(picked);
    var invalid := |picked| - |accepted|;
    RejectedIffNonAudio(picked);
    NoneAcceptedIffAllRejected(picked);
    Chosen(accepted, if invalid > 0 && |accepted| == 0 then Some(NoAudioFound) else None)
  }

  /** `handleDrop`: an empty drop changes nothing (`None`); a drop of only non-audio
      files empties the selection with a warning; otherwise the audio files replace
      the selection and the warning is cleared. */
  function DropSelection(dropped: seq<File>): (c: Option<Chosen>)
    ensures c.None? <==> dropped == []
    ensures c.Some? ==> c.value.files == Accepted(dropped)
    ensures c.Some? ==> (c.value.warning.Some? <==> forall f :: f in dropped ==> !IsAudio(f))
    ensures c.Some? && c.value.warning.Some? ==> c.value.warning.value == InvalidDropped
  {
    var accepted := Accepted(dropped);
    var invalid := |dropped| - |accepted|;
    RejectedIffNonAudio(dropped);
    NoneAcceptedIffAllRejected(dropped);
    if |accepted| > 0 then
      Some(Chosen(accepted, if invalid > 0 && |accepted| == 0 then Some(NoAudioFound) else None))
    else if invalid > 0 then
      Some(Chosen([], Some(InvalidDropped)))
    else
      None
  }

  /** The extension test ignores letter case. */
  lemma UpperCaseExtensionAccepted()
    ensures IsAudio(File("TRACK.WAV", "", "", 0))
  {
    LastDotUnique("TRACK.WAV", 5);
    assert "TRACK.WAV"[6..] == "WAV";
    assert Lower("WAV") == "wav";
    HasAudioSuffixByLastDot("TRACK.WAV");
  }

  /** A file whose MIME type is not audio and whose extension is not in the list is
      rejected. */
  lemma ExtensionRejected(f: File, p: nat)
    requires !StartsWith(f.mimeType, AudioMimePrefix)
    requires LastDot(f.name) == Some(p) && !IsAudioExtension(Lower(f.name[p + 1..]))
    ensures !IsAudio(f)
  {
    HasAudioSuffixByLastDot(f.name);
  }

  /** A document with a non-audio MIME type is rejected. */
  lemma DocumentRejected()
    ensures !IsAudio(File("report.docx", "application/msword", "", 1))
  {
    var name := "report.docx";
    LastDotUnique(name, 6);
    assert name[7..] == "docx";
    assert Lower("docx") == "docx";
    assert !StartsWith("application/msword", AudioMimePrefix) by {
      assert "application/msword"[..6][1] != AudioMimePrefix[1];
    }
    ExtensionRejected(File(name, "application/msword", "", 1), 6);
  }
}
