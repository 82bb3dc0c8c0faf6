/** Artifact retrieval (`handleDownload`): the name a retrieved file is saved under,
    and the fetch outcome that decides whether anything is saved. It reads and
    writes no workflow state. */
module Download {
  import opened Wrappers
  import opened Text

  const ArchiveSuffix := ".zip"
  const Marker := "_wm"

  /** Where the pattern `(\.[^.]+)$` matches: a '.' followed by at least one
      character, none of them a '.', up to the end of the name. */
  predicate ExtensionAt(name: string, i: nat) {
    i + 1 < |name| && name[i] == '.' && forall j :: i < j < |name| ==> name[j] != '.'
  }

  /** An archive keeps its name; otherwise `_wm` goes before the final extension. */
  function DownloadName(name: string): (r: string)
    ensures |r| == |name| || |r| == |name| + |Marker|
  {
    if EndsWith(name, ArchiveSuffix) then name
    else match LastDot(name)
      case Some(i) => if i + 1 < |name| then name[..i] + Marker + name[i..] else name
      case None => name
  }

  /** `DownloadName` agrees with the replacement `originalName.replace(/(\.[^.]+)$/, '_wm$1')`
      guarded by `endsWith('.zip')`: the marker goes exactly where the pattern
      matches, and a name the pattern does not match is kept. */
  lemma DownloadNameMatchesPattern(name: string)
    ensures EndsWith(name, ArchiveSuffix) ==> DownloadName(name) == name
    ensures !EndsWith(name, ArchiveSuffix) ==>
              forall i: nat :: ExtensionAt(name, i) ==> DownloadName(name) == name[..i] + Marker + name[i..]
    ensures (forall i :: 0 <= i < |name| ==> !ExtensionAt(name, i)) ==> DownloadName(name) == name
  {
    forall i: nat | ExtensionAt(name, i) ensures LastDot(name) == Some(i) {
      LastDotUnique(name, i);
    }
    if LastDot(name).Some? && LastDot(name).value + 1 < |name| {
      assert ExtensionAt(name, LastDot(name).value);
    }
  }

  /** The marked name still ends in the original extension, and removing the three
      marker characters gives the original name back. */
  lemma MarkerIsRemovable(name: string, i: nat)
    requires !EndsWith(name, ArchiveSuffix) && ExtensionAt(name, i)
    ensures DownloadName(name)[i..i + |Marker|] == Marker
    ensures DownloadName(name)[..i] + DownloadName(name)[i + |Marker|..] == name
    ensures EndsWith(DownloadName(name), name[i..])
  {
    DownloadNameMatchesPattern(name);
    var r := DownloadName(name);
    assert r[..i] == name[..i];
    assert r[i + |Marker|..] == name[i..];
  }

  lemma DownloadNameExamples()
    ensures DownloadName("track.wav") == "track_wm.wav"
    ensures DownloadName("a.b.wav") == "a.b_wm.wav"
    ensures DownloadName("bundle.zip") == "bundle.zip"
    ensures DownloadName("README") == "README"
    ensures DownloadName("take.") == "take."
  {
    assert !EndsWith("track.wav", ArchiveSuffix) by {
      assert "track.wav"[5..][1] != ArchiveSuffix[1];
    }
    LastDotUnique("track.wav", 5);
    assert "track.wav"[..5] + Marker + "track.wav"[5..] == "track_wm.wav";
    assert !EndsWith("a.b.wav", ArchiveSuffix) by {
      assert "a.b.wav"[3..][1] != ArchiveSuffix[1];
    }
    LastDotUnique("a.b.wav", 3);
    assert "a.b.wav"[..3] + Marker + "a.b.wav"[3..] == "a.b_wm.wav";
    assert EndsWith("bundle.zip", ArchiveSuffix) by {
      assert "bundle.zip"[6..] == ".zip";
    }
    assert !EndsWith("README", ArchiveSuffix) by {
      assert "README"[2..][0] != ArchiveSuffix[0];
    }
    assert LastDot("README") == None;
    assert !EndsWith("take.", ArchiveSuffix) by {
      assert "take."[1..][0] != ArchiveSuffix[0];
    }
    LastDotUnique("take.", 4);
  }

  /** What the retrieval fetch produced: a status with a body, or a rejection. */
  datatype Fetched = Fetched(status: nat, bytes: seq<bv8>) | FetchRejected

  datatype SavedFile = SavedFile(filename: string, bytes: seq<bv8>)

  /** `handleDownload`: a 2xx reply is saved, byte for byte, under the derived name;
      any other outcome saves nothing. */
  function HandleDownload(fetched: Fetched, originalName: string): (saved: Option<SavedFile>)
    ensures saved.Some? <==> fetched.Fetched? && 200 <= fetched.status < 300
    ensures saved.Some? ==> saved.value.bytes == fetched.bytes
    ensures saved.Some? ==> saved.value.filename == DownloadName(originalName)
  {
    match fetched
    case Fetched(status, bytes) =>
      if 200 <= status < 300 then Some(SavedFile(DownloadName(originalName), bytes)) else None
    case FetchRejected => None
  }
}
