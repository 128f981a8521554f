/**
 * One file's conversion (`convert_flac` with `convert_file_only`, `pipe_cmds`
 * and `set_tags`) over a filesystem of named files. The metaflac listing, the
 * two processes' return codes and what lame leaves behind are inputs.
 */
module Convert {
  import opened Wrappers
  import opened Text
  import opened Tags
  import opened Metaflac
  import opened Paths

  /** What a file holds, as far as the conversion cares: an MP3 with its tag, or anything else. */
  datatype Contents = Mp3(tag: Tag) | Audio

  /** The tag lame writes with `--add-id3v2` when it is given no tag text: every field empty. */
  const LameTag: Tag := Tag(None, None, None, TrackNum(None, None), None, None)

  /** The exceptions that leave a conversion. */
  datatype Error =
    | Undecodable(value: seq<Byte>)   // UnicodeDecodeError from a tag value
    | LameFailed                      // the RuntimeError raised when lame fails
    | TagFailed(cause: ApplyError)    // ValueError from `int()` in the track-number setter
    | FileNotFound(path: Path)        // `os.remove` or `eyed3.load` of a missing file
    | NotAnMp3(path: Path)            // `eyed3.load` gives None for a file it cannot read

  /** How `convert_flac` returns: the new path, or None after a skip or a failed encode. */
  datatype Outcome = Converted(mp3: Path) | SkippedExisting | ConversionFailed

  /**
   * The external outcome of `flac --decode | lame`: each stage's return code, and
   * whether lame left a partial output behind when it failed.
   */
  datatype PipeRun = PipeRun(flacCode: int, lameCode: int, partialOutput: bool)

  /** The files, by path. */
  class FileSystem {
    var files: map<Path, Contents>

    constructor (files: map<Path, Contents>)
      ensures this.files == files
    {
      this.files := files;
    }

    /** `os.path.exists`. */
    method Exists(p: Path) returns (b: bool)
      ensures b <==> p in files
    {
      b := p in files;
    }

    /** `os.remove`: raises for a missing file, otherwise the file is gone and nothing else changes. */
    method Remove(p: Path) returns (err: Option<Error>)
      modifies this
      ensures p in old(files) ==> err == None && files == old(files) - {p}
      ensures p !in old(files) ==> err == Some(FileNotFound(p)) && files == old(files)
    {
      if p !in files {
        return Some(FileNotFound(p));
      }
      files := files - {p};
      return None;
    }
  }

  // ---------------------------------------------------------------------------
  // Specification functions

  /** What the pipe leaves on disk: lame's output, when it finished or left a partial file. */
  function PipeEffect(files: map<Path, Contents>, mp3: Path, run: PipeRun): map<Path, Contents>
  {
    if run.lameCode == 0 || run.partialOutput then files[mp3 := Mp3(LameTag)] else files
  }

  /** `set_tags`: load the MP3's tag, run the setters in order, save. */
  function SetTagsSpec(files: map<Path, Contents>, mp3: Path, setters: seq<TagAssignment>)
    : (Option<Error>, map<Path, Contents>)
  {
    if mp3 !in files then (Some(FileNotFound(mp3)), files)
    else if !files[mp3].Mp3? then (Some(NotAnMp3(mp3)), files)
    else match ApplyAll(files[mp3].tag, setters)
      case Err(e) => (Some(TagFailed(e)), files)
      case Ok(t) => (None, files[mp3 := Mp3(t)])
  }

  /**
   * `convert_file_only`: parse the listing metaflac printed (a decode error
   * leaves before the flac | lame pipe runs), run the pipe, and on a non-zero return code remove the output,
   * ignoring a missing one, and raise.
   */
  function ConvertFileOnlySpec(files: map<Path, Contents>, mp3: Path,
                               parsed: Result<seq<TagAssignment>, ParseError>, run: PipeRun)
    : (Option<Error>, map<Path, Contents>)
  {
    match parsed
    case Err(DecodeError(v)) => (Some(Undecodable(v)), files)
    case Ok(_) =>
      var piped := PipeEffect(files, mp3, run);
      if run.lameCode != 0 then (Some(LameFailed), piped - {mp3}) else (None, piped)
  }

  /**
   * `convert_flac`: skip when the MP3 exists; otherwise convert, treat the
   * RuntimeError of a failed encode as a quiet failure, write the tags, and only
   * then delete the source. Every other exception leaves with the state reached.
   */
  function ConvertSpec(files: map<Path, Contents>, flac: Path, mp3: Path,
                       parsed: Result<seq<TagAssignment>, ParseError>, run: PipeRun)
    : (Result<Outcome, Error>, map<Path, Contents>)
  {
    if mp3 in files then (Ok(SkippedExisting), files)
    else
      var (err, converted) := ConvertFileOnlySpec(files, mp3, parsed, run);
      if err == Some(LameFailed) then (Ok(ConversionFailed), converted)
      else if err.Some? then (Err(err.value), converted)
      else
        var (tagErr, tagged) := SetTagsSpec(converted, mp3, parsed.value);
        if tagErr.Some? then (Err(tagErr.value), tagged)
        else if flac !in tagged then (Err(FileNotFound(flac)), tagged)
        else (Ok(Converted(mp3)), tagged - {flac})
  }

  // ---------------------------------------------------------------------------
  // The steps, on the filesystem

  /**
   * `pipe_cmds(flac --decode, lame)`: the result is the return code of the last
   * stage, so a failing decoder is not noticed when lame still exits with 0.
   */
  method PipeCmds(fs: FileSystem, mp3: Path, run: PipeRun) returns (code: int)
    modifies fs
    ensures code == run.lameCode
    ensures fs.files == PipeEffect(old(fs.files), mp3, run)
  {
    var results := [run.flacCode, run.lameCode];
    if run.lameCode == 0 || run.partialOutput {
      fs.files := fs.files[mp3 := Mp3(LameTag)];
    }
    code := results[|results| - 1];
  }

  method SetTags(fs: FileSystem, mp3: Path, setters: seq<TagAssignment>) returns (err: Option<Error>)
    modifies fs
    ensures (err, fs.files) == SetTagsSpec(old(fs.files), mp3, setters)
  {
    if mp3 !in fs.files {
      return Some(FileNotFound(mp3));
    }
    if !fs.files[mp3].Mp3? {
      return Some(NotAnMp3(mp3));
    }
    var loaded := fs.files[mp3].tag;
    var tag := new Id3Tag(loaded);
    var i := 0;
    while i < |setters|
      invariant 0 <= i <= |setters|
      invariant ApplyAll(loaded, setters[..i]) == Ok(tag.Value())
      invariant fs.files == old(fs.files)
    {
      var e := tag.Set(setters[i]);
      assert setters[..i + 1][..i] == setters[..i];
      if e.Some? {
        ApplyAllStopsAtError(loaded, setters, i + 1);
        return Some(TagFailed(e.value));
      }
      i := i + 1;
    }
    assert setters[..i] == setters;
    fs.files := fs.files[mp3 := Mp3(tag.Value())];
    return None;
  }

  method ConvertFileOnly(fs: FileSystem, mp3: Path, listing: seq<Byte>,
                         decode: seq<Byte> -> Option<string>, run: PipeRun)
    returns (err: Option<Error>)
    modifies fs
    ensures (err, fs.files) == ConvertFileOnlySpec(old(fs.files), mp3, MetaflacStdoutToSetters(listing, decode), run)
  {
    var setters := MetaflacStdoutToSetters(listing, decode);
    if setters.Err? {
      return Some(Undecodable(setters.error.value));
    }
    var code := PipeCmds(fs, mp3, run);
    if code != 0 {
      var piped := fs.files;
      var ignored := fs.Remove(mp3);
      assert mp3 !in piped ==> piped - {mp3} == piped;
      return Some(LameFailed);
    }
    return None;
  }

  method ConvertFlac(fs: FileSystem, flac: Path, listing: seq<Byte>,
                     decode: seq<Byte> -> Option<string>, run: PipeRun)
    returns (r: Result<Outcome, Error>)
    modifies fs
    ensures (r, fs.files) == ConvertSpec(old(fs.files), flac, Mp3Path(flac), MetaflacStdoutToSetters(listing, decode), run)
  {
    var mp3 := Mp3Path(flac);
    var present := fs.Exists(mp3);
    if present {
      return Ok(SkippedExisting);
    }
    var tagSetters := MetaflacStdoutToSetters(listing, decode);
    var err := ConvertFileOnly(fs, mp3, listing, decode, run);
    if err == Some(LameFailed) {
      return Ok(ConversionFailed);
    }
    if err.Some? {
      return Err(err.value);
    }
    var tagErr := SetTags(fs, mp3, tagSetters.value);
    if tagErr.Some? {
      return Err(tagErr.value);
    }
    var removeErr := fs.Remove(flac);
    if removeErr.Some? {
      return Err(removeErr.value);
    }
    return Ok(Converted(mp3));
  }

  // ---------------------------------------------------------------------------
  // What a conversion does

  /**
   * The files stay exactly as they were when the output already exists, when a
   * tag value cannot be decoded, and when the encode fails: the output lame
   * may have left is removed again and the source is kept.
   */
  lemma UnchangedUnlessEncoded(files: map<Path, Contents>, flac: Path, mp3: Path,
                               parsed: Result<seq<TagAssignment>, ParseError>, run: PipeRun)
    ensures var (r, after) := ConvertSpec(files, flac, mp3, parsed, run);
      (r == Ok(SkippedExisting) || r == Ok(ConversionFailed) || (r.Err? && r.error.Undecodable?))
      ==> after == files
    ensures var (r, after) := ConvertSpec(files, flac, mp3, parsed, run);
      r == Ok(SkippedExisting) <==> mp3 in files
    ensures var (r, after) := ConvertSpec(files, flac, mp3, parsed, run);
      r == Ok(ConversionFailed) <==>
        mp3 !in files && parsed.Ok? && run.lameCode != 0
  {
    if mp3 !in files && parsed.Ok? && run.lameCode != 0 {
      assert PipeEffect(files, mp3, run) - {mp3} == files;
    }
  }

  /**
   * Only the output and the source are touched: every other path is present
   * afterwards exactly when it was before, with the same contents.
   */
  lemma OnlyOutputAndSourceChange(files: map<Path, Contents>, flac: Path, mp3: Path,
                                  parsed: Result<seq<TagAssignment>, ParseError>, run: PipeRun)
    ensures var after := ConvertSpec(files, flac, mp3, parsed, run).1;
      forall p :: p != mp3 && p != flac ==>
        (p in after <==> p in files) && (p in files ==> after[p] == files[p])
  {
    if mp3 !in files && parsed.Ok? {
      var (err, converted) := ConvertFileOnlySpec(files, mp3, parsed, run);
      assert forall p :: p != mp3 ==> (p in converted <==> p in files) && (p in files ==> converted[p] == files[p]);
      if err.None? {
        var (tagErr, tagged) := SetTagsSpec(converted, mp3, parsed.value);
        assert forall p :: p != mp3 ==> (p in tagged <==> p in files) && (p in files ==> tagged[p] == files[p]);
      }
    }
  }

  /** The errors that escape `convert_flac`: undecodable values, a bad track number, or a vanished source. */
  lemma EscapingErrors(files: map<Path, Contents>, flac: Path, mp3: Path,
                       parsed: Result<seq<TagAssignment>, ParseError>, run: PipeRun)
    ensures var r := ConvertSpec(files, flac, mp3, parsed, run).0;
      r.Err? ==> r.error.Undecodable? || r.error.TagFailed? || r.error == FileNotFound(flac)
  {
  }

  /**
   * The source is deleted only by a successful conversion, and only once the
   * output holds the tag the listing's setters produce from lame's empty tag.
   */
  lemma SourceDeletedOnlyAfterTagging(files: map<Path, Contents>, flac: Path, mp3: Path,
                                      parsed: Result<seq<TagAssignment>, ParseError>, run: PipeRun)
    requires flac in files
    requires flac !in ConvertSpec(files, flac, mp3, parsed, run).1
    ensures var (r, after) := ConvertSpec(files, flac, mp3, parsed, run);
      (&& r == Ok(Converted(mp3))
       && run.lameCode == 0
       && parsed.Ok? && ApplyAll(LameTag, parsed.value).Ok?
       && mp3 in after && after[mp3] == Mp3(ApplyAll(LameTag, parsed.value).value))
  {
  }

  /**
   * The success row of the conversion: a run converts exactly when the output does not
   * exist yet, the listing decodes, lame succeeds, every setter succeeds and the source
   * is still there to remove; a conversion always removes the source.
   */
  lemma ConvertedExactly(files: map<Path, Contents>, flac: Path, mp3: Path,
                         parsed: Result<seq<TagAssignment>, ParseError>, run: PipeRun)
    requires mp3 != flac
    ensures var (r, after) := ConvertSpec(files, flac, mp3, parsed, run);
      && (r == Ok(Converted(mp3)) <==>
            && mp3 !in files && parsed.Ok? && run.lameCode == 0
            && ApplyAll(LameTag, parsed.value).Ok? && flac in files)
      && (r == Ok(Converted(mp3)) ==> flac in files && flac !in after)
  {
  }

  /**
   * A converted file's tag follows the listing: each field holds what the last
   * setter for it wrote, and a field no setter names stays empty as lame left it.
   */
  lemma ConvertedTagFollowsListing(files: map<Path, Contents>, flac: Path, mp3: Path,
                                   parsed: Result<seq<TagAssignment>, ParseError>, run: PipeRun, f: Field)
    requires mp3 != flac
    requires ConvertSpec(files, flac, mp3, parsed, run).0 == Ok(Converted(mp3))
    ensures var after := ConvertSpec(files, flac, mp3, parsed, run).1;
      var setters := parsed.value;
      && mp3 in after && after[mp3].Mp3?
      && (LastFor(setters, f).None? ==> Get(after[mp3].tag, f) == Get(LameTag, f))
      && (LastFor(setters, f).Some? ==>
            Written(setters[LastFor(setters, f).value]) == Ok(Get(after[mp3].tag, f)))
  {
    var setters := parsed.value;
    assert ApplyAll(LameTag, setters).Ok?;
    LastWriteWins(LameTag, setters, f);
  }

  /**
   * Only the last stage's return code is looked at: whatever the decoder
   * reports, the conversion goes as if it had succeeded.
   */
  lemma FirstStageFailureMasked(files: map<Path, Contents>, flac: Path, mp3: Path,
                                parsed: Result<seq<TagAssignment>, ParseError>, run: PipeRun)
    ensures ConvertSpec(files, flac, mp3, parsed, run)
         == ConvertSpec(files, flac, mp3, parsed, run.(flacCode := 0))
  {
  }

  /**
   * A bad track number is not caught: the exception leaves the output in place
   * with lame's empty tag and keeps the source.
   */
  lemma BadTrackNumberStrandsOutput(files: map<Path, Contents>, flac: Path, mp3: Path,
                                    parsed: Result<seq<TagAssignment>, ParseError>, run: PipeRun)
    requires mp3 != flac
    requires var r := ConvertSpec(files, flac, mp3, parsed, run).0; r.Err? && r.error.TagFailed?
    ensures var after := ConvertSpec(files, flac, mp3, parsed, run).1;
      && after == files[mp3 := Mp3(LameTag)]
      && (flac in after <==> flac in files)
      && exists i :: 0 <= i < |parsed.value|
           && parsed.value[i].field == TrackNumber
           && ParseInt(parsed.value[i].value).None?
  {
    ApplyAllFails(LameTag, parsed.value);
  }

  /**
   * After a run the output exists exactly when the run did not stop at an
   * undecodable listing or a failed encode.
   */
  lemma OutputLeftBehind(files: map<Path, Contents>, flac: Path, mp3: Path,
                         parsed: Result<seq<TagAssignment>, ParseError>, run: PipeRun)
    requires mp3 != flac
    ensures var (r, after) := ConvertSpec(files, flac, mp3, parsed, run);
      mp3 in after <==> !(r == Ok(ConversionFailed) || (r.Err? && r.error.Undecodable?))
  {
    UnchangedUnlessEncoded(files, flac, mp3, parsed, run);
    if mp3 !in files && parsed.Ok? && run.lameCode == 0 {
      var converted := ConvertFileOnlySpec(files, mp3, parsed, run).1;
      assert converted == files[mp3 := Mp3(LameTag)];
      var tagged := SetTagsSpec(converted, mp3, parsed.value).1;
      assert mp3 in tagged;
    }
  }

  /**
   * A second run over the same source does nothing once the first left an
   * output behind, which is every run except a failed encode or an undecodable
   * listing: in particular a file whose tags failed is never tagged again.
   */
  lemma RerunSkips(files: map<Path, Contents>, flac: Path, mp3: Path,
                   parsed: Result<seq<TagAssignment>, ParseError>, run: PipeRun, again: PipeRun)
    requires mp3 != flac
    ensures var (r, after) := ConvertSpec(files, flac, mp3, parsed, run);
      !(r == Ok(ConversionFailed) || (r.Err? && r.error.Undecodable?)) <==>
        ConvertSpec(after, flac, mp3, parsed, again) == (Ok(SkippedExisting), after)
  {
    var after := ConvertSpec(files, flac, mp3, parsed, run).1;
    OutputLeftBehind(files, flac, mp3, parsed, run);
    UnchangedUnlessEncoded(after, flac, mp3, parsed, again);
  }
}
