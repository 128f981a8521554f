# bcconvert in Dafny

A model of the deterministic core of `bcconvert.py`, a batch converter that unpacks
Bandcamp-style archives (`Artist - Album.zip`), converts every `.flac` file inside to
`.mp3` by piping `flac --decode` into `lame`, copies the Vorbis comments onto the
MP3's ID3 tag and deletes the source once the tags are written.

The model covers:

- **The metaflac listing parser** (`metaflac.dfy`). `metaflac --list` output is bytes. It is split at
  every newline, and each line is matched against `\s+comment\[\d+\]: ([A-Za-z 0-9_]+)=(.*)`.
  A line yields one tag assignment when its key is one of the six keys of `TAG_MAP`.
  The recogniser is written out by hand as greedy runs of byte classes, each followed by a
  literal (`Token`). It is proved sound and complete against a declarative description of
  the line shape (`Shaped`). The UTF-8 decode of a value is a parameter.
- **Tag application** (`tags.dfy`). Each setter writes one attribute of an ID3 tag, and
  `set_tags` runs them in order. The track number goes through Python's `int()`, which is
  modelled for base-10 text: stripping, an optional sign, and single underscores between
  digits. A text `int()` rejects fails only when the setter runs. `Id3Tag` is the mutable
  tag object, and `Set` runs one setter on it.
- **Paths and names** (`paths.dfy`). This covers:
  - `os.path.splitext`, `basename` and `join`;
  - the `.mp3` output path;
  - `get_all_matching`'s case-insensitive extension filter;
  - `generate_dest_dir_name`: the strict pattern, then the lenient one that splits at the
    last ` - `, then None.
- **One file's conversion** (`convert.dfy`):
  - `FileSystem` holds the files by path.
  - `PipeCmds`, `SetTags`, `ConvertFileOnly` and `ConvertFlac` change it step by step.
    Each is proved equal to a specification function over the map of files.
  - The return codes of the two processes, and whether a failing lame left a partial file,
    are inputs (`PipeRun`).
  - Lemmas state what a run does to the output file, to the source file and to every other
    file. They state which exceptions escape, and what a second run does.
- **`main_loop`'s list of conversions** (`mainloop.dfy`). The nested loops that collect the
  `.flac` files of every unpacked archive under every command-line path are modelled
  imperatively against the function `Jobs`. `unzip_serial` is `Unzip`: it names the
  directory with `generate_dest_dir_name`, skips an archive whose directory already exists,
  and otherwise adds the directory to the set of existing paths, which the loops carry from
  one archive to the next. So an archive reached twice in one run is unpacked once, and its
  files are collected once. An archive whose name fits neither pattern gets no directory
  and is skipped. Only a path whose `os.path.splitext` extension is not `.zip` raises the
  AssertionError, which ends the loop: `dl/.zip` is one, since `get_all_matching` yields it
  but `splitext` gives it no extension. The directory walks are a parameter.

Some consequences of the code's order of operations that the model keeps:

- **When the track number is converted.** The setters are built while the listing is
  parsed, but `int()` runs only inside the `TRACKNUMBER` setter, when `set_tags` calls it
  (bcconvert.py:116, 168-171). That happens after lame has succeeded.
- **What a bad track number leaves behind.** `set_tags` is called at bcconvert.py:237,
  after the `try`/`except` at bcconvert.py:231-235, so no exception it raises is caught.
  The `ValueError` from `int()` leaves `convert_flac`. The MP3 stays on disk with lame's
  empty tag, and the source is kept (`BadTrackNumberStrandsOutput`). Because the output
  then exists, a later run skips that source (`RerunSkips`).
- **Which keys are kept.** Repeated keys are all kept. The last one written wins
  (`LastWriteWins`).

## Model

| member | source | states |
|---|---|---|
| Tags.FieldOf | bcconvert.py:112-122 | exactly the six byte keys TITLE, ARTIST, ALBUM, TRACKNUMBER, DATE and ALBUMARTIST map to a field, compared case-sensitively; every other key maps to none |
| Tags.ParseInt | bcconvert.py:116 | `int()` in base 10: whitespace skipped at both ends, an optional sign, ASCII digits with single underscores between them, and None where `int()` raises; the lemmas `ParseIntShowInt`, `ParseIntPlain`, `ParseIntPadded`, `ParseIntSignedGrouped`, `ParseIntRejects` and `ParseIntKeepsSeparators` state it |
| Tags.ParseIntShowInt | bcconvert.py:116 | `int(str(n)) == n` for every integer n, negative ones included |
| Tags.ParseIntPlain | bcconvert.py:116 | `int("7")` is 7 |
| Tags.ParseIntPadded | bcconvert.py:116 | surrounding whitespace is stripped and leading zeros are accepted: `int(" 07\n")` is 7 |
| Tags.ParseIntSignedGrouped | bcconvert.py:116 | a minus sign and underscores between digits are accepted: `int("-1_000")` is -1000 |
| Tags.ParseIntRejects | bcconvert.py:116 | `int()` raises on "seven", on "", on a sign followed by a blank, and on a doubled underscore |
| Tags.ParseIntKeepsSeparators | bcconvert.py:116 | `int()` raises on a number after the ASCII separator U+001C, which it does not skip |
| Tags.Apply | bcconvert.py:102-109 | one setter run on a tag: it writes its own attribute with the value `Written` converts (the one place `int()` is applied to the track number); `ApplyWritesOneField` states it |
| Tags.ApplyWritesOneField | bcconvert.py:102-122 | one setter writes its own attribute with the converted value and leaves the other five alone; it fails exactly for a track number `int()` rejects, with that text as the error |
| Tags.Id3Tag.Set | bcconvert.py:105-107 | `setattr` on the tag object: the new tag is the old one with the setter applied, and a failing setter changes nothing |
| Tags.ApplyAll | bcconvert.py:168-171 | the loop of `set_tags` over the setters, stopping at the first that raises; `ApplyAllStopsAtError`, `LastWriteWins` and `ApplyAllFails` state it |
| Tags.ApplyAllStopsAtError | bcconvert.py:170-171 | once a setter raises, the loop ends with that error whatever setters follow |
| Tags.LastWriteWins | bcconvert.py:168-171 | after the loop, each field holds the value of the last setter for it, and a field no setter names keeps its old value |
| Tags.ApplyAllFails | bcconvert.py:168-171 | the loop fails exactly when some track-number setter has text `int()` rejects; the error names the first such text, and every setter before it succeeds |
| Text.Lower | bcconvert.py:58-59 | `str.lower()` on ASCII: same length, with each capital letter replaced by its lower-case letter |
| Text.Split | bcconvert.py:148 | `bytes.split(b'\n')` gives at least one piece, and no piece holds a newline |
| Text.JoinSplit | bcconvert.py:148 | joining the pieces of a split with the separator gives back the original bytes |
| Text.SplitJoin | bcconvert.py:148 | splitting a join of newline-free lines gives back the lines |
| Metaflac.Run | bcconvert.py:150 | a greedy repetition: every byte before the returned length is in the class, and the byte at it is not |
| Metaflac.Token | bcconvert.py:150 | a recognised step is a non-empty run of the class, then the literal, then the returned rest |
| Metaflac.TokenOf | bcconvert.py:150 | a run followed by a literal that starts outside the class is always recognised, with that run and that rest |
| Metaflac.KeyValueSound | bcconvert.py:150 | an accepted `KEY=VALUE` text is a non-empty key of `[A-Za-z 0-9_]`, then `=`, then the value up to the end of the line, untrimmed |
| Metaflac.KeyValueComplete | bcconvert.py:150 | every such text is accepted, with exactly that key and value, so the key ends at the first `=` |
| Metaflac.IndexSound | bcconvert.py:150 | an accepted index text is digits, `]: `, key, `=`, value |
| Metaflac.IndexComplete | bcconvert.py:150 | every such text is accepted, with its key and value |
| Metaflac.MatchLine | bcconvert.py:149-152 | `re.match` of the comment pattern on one line, giving the key and value groups; `MatchLineSound`, `MatchLineComplete` and `UnindentedLineNeverMatches` state it |
| Metaflac.MatchLineSound | bcconvert.py:149-153 | every line the recogniser accepts is whitespace, `comment[`, digits, `]: `, key, `=`, value, with the groups it returns |
| Metaflac.MatchLineComplete | bcconvert.py:149-153 | every line of that shape is accepted, with exactly its key and value |
| Metaflac.UnindentedLineNeverMatches | bcconvert.py:126-153 | a line that does not start with whitespace, such as a continuation line or a block header, never matches |
| Metaflac.ParseLine | bcconvert.py:149-159 | what one line yields: nothing, one setter, or the decode error; `KeptLine`, `DroppedKey` and `UnshapedLine` state it |
| Metaflac.KeptLine | bcconvert.py:153-159 | a comment line whose key is in the tag map yields one assignment of its decoded value, or the decode error |
| Metaflac.DroppedKey | bcconvert.py:155-158 | a comment line whose key is not in the tag map yields nothing, and its value is never decoded |
| Metaflac.UnshapedLine | bcconvert.py:149-153 | a line without the comment shape yields nothing |
| Metaflac.ParseLines | bcconvert.py:148-159 | the generator over the lines collected into a list, the first error escaping; `ParseLinesAppend`, `ParseLinesCons`, `ParseLinesPerLine`, `AssignmentsComeFromLines` and `LinesYieldAssignments` state it |
| Metaflac.ParseLinesAppend | bcconvert.py:148-159 | parsing is line by line and keeps order: parsing two listings joined is parsing the first, then the second, and the first error wins |
| Metaflac.ParseLinesCons | bcconvert.py:148-159 | a listing's result is its first line's contribution followed by the rest's |
| Metaflac.ParseLinesPerLine | bcconvert.py:148-159 | when every line succeeds, the result is each line's contribution concatenated in line order |
| Metaflac.AssignmentsComeFromLines | bcconvert.py:148-159 | nothing is invented: every assignment comes from a comment line whose key maps to its field and whose value decodes to its value |
| Metaflac.LinesYieldAssignments | bcconvert.py:148-159 | nothing is lost: every comment line with a mapped key contributes its assignment to the list |
| Metaflac.MetaflacStdoutToSetters | bcconvert.py:125-159 | `list(metaflac_stdout_to_setters(output))`: the lines of the output parsed in order; `ParseJoinedLines` and the lemmas about `ParseLines` state it |
| Metaflac.ParseJoinedLines | bcconvert.py:148 | parsing the whole output is parsing its newline-separated lines |
| Paths.SplitExt | bcconvert.py:223 | `os.path.splitext`: root and extension concatenate to the path; the extension is non-empty exactly when the last dot lies in the last path component with some character other than a dot before it in that component, and it is then everything from that dot on |
| Paths.Mp3Path | bcconvert.py:223 | the output path ends with `.mp3` |
| Paths.Mp3PathOfFlac | bcconvert.py:223 | for a path ending with `.flac` in any case whose last component has a character other than a dot before it, the output path is the path with those five characters replaced by `.mp3` |
| Paths.Mp3PathDiffers | bcconvert.py:223-224 | a path ending with `.flac`, in any case, is never its own output path |
| Paths.Basename | bcconvert.py:72 | `os.path.basename` is the suffix of the path after its last `/`: it holds no `/` and is the whole path or preceded by a `/` |
| Paths.JoinPath | bcconvert.py:76 | `os.path.join` of two parts: an absolute second part replaces the first, and otherwise one `/` separates them; `JoinPathPlain` states it |
| Paths.JoinPathPlain | bcconvert.py:76 | `os.path.join` of two slash-free parts puts exactly one `/` between them |
| Paths.FilterExt | bcconvert.py:67 | the filter keeps exactly the entries that end with the extension, compared case-insensitively, and never adds any |
| Paths.FilterExtAppend | bcconvert.py:67 | the filter keeps listing order: filtering a concatenation filters each part |
| Paths.GetAllMatching | bcconvert.py:57-67 | the path itself when it has the extension, in any case, else the matching files of its walk; `GetAllMatchingYields` and `MatchingIgnoresCase` state it |
| Paths.GetAllMatchingYields | bcconvert.py:57-67 | `get_all_matching` yields only the path when it already ends with the extension; otherwise it yields exactly the matching listed files; everything it yields matches |
| Paths.MatchingIgnoresCase | bcconvert.py:57-67 | two extensions that lower to the same text select the same files, for the path itself and for every listed file |
| Paths.HappyMatch | bcconvert.py:20 | `HAPPY_ZIP_PAT.match` on a base name; `HappyMatchIff` and `NameCharsExclude` state it |
| Paths.HappyMatchIff | bcconvert.py:20 | the strict pattern accepts exactly the names `artist - album` whose two parts are non-empty word, space and digit text |
| Paths.LastDash | bcconvert.py:21 | the scan returns a ` - ` with text on both sides and no later such separator |
| Paths.CheckMatch | bcconvert.py:21 | `CHECK_ZIP_PAT.match` on a base name; `LastDash`, `CheckMatchSound` and `CheckMatchComplete` state it |
| Paths.CheckMatchSound | bcconvert.py:21 | the lenient pattern splits the name around ` - ` into two non-empty parts, at the last place that allows it, and only for names without a newline |
| Paths.CheckMatchComplete | bcconvert.py:21 | the lenient pattern matches every newline-free name that has such a split |
| Paths.NameCharsExclude | bcconvert.py:20 | the strict pattern's characters are never `/`, `.` or `-` |
| Paths.HappyAgreesWithCheck | bcconvert.py:74-80 | where the strict pattern matches, the lenient one would give the same split |
| Paths.DestDirName | bcconvert.py:70-82 | `generate_dest_dir_name`: the AssertionError, then the strict pattern, the lenient one, or None; `DestDirNameParts`, `DestDirNameNeedsZip`, `DestDirNameRoundTrip` and `HappyAgreesWithCheck` state it |
| Paths.DestDirNameParts | bcconvert.py:70-82 | a returned directory name is the base name's two parts around ` - `, joined by `/` |
| Paths.DestDirNameNeedsZip | bcconvert.py:73 | the assertion fails exactly when the extension is not `.zip` in some case |
| Paths.DestDirNameRoundTrip | bcconvert.py:70-76 | `dir/Artist - Album.zip` with word, space and digit parts unpacks into `Artist/Album` |
| Convert.FileSystem.Exists | bcconvert.py:224 | `os.path.exists` is true exactly for a present path |
| Convert.FileSystem.Remove | bcconvert.py:216 | `os.remove` removes exactly that file, or raises for a missing one and changes nothing |
| Convert.PipeEffect | bcconvert.py:194-201 | what the pipe leaves on disk: lame's output when it exits with 0 or leaves a partial file; `PipeCmds` is proved against it |
| Convert.PipeCmds | bcconvert.py:194-201 | the result is the second stage's return code; the files change only by lame's output |
| Convert.SetTagsSpec | bcconvert.py:168-172 | `set_tags` on the map of files: a missing file, a file that is not an MP3 and a failing setter raise and change nothing, else the MP3's tag is replaced; `SetTags` is proved against it |
| Convert.SetTags | bcconvert.py:168-172 | loads the MP3's tag, runs the setters on an `Id3Tag` in order and saves it; the result equals the specification, including the missing-file, not-an-MP3 and failing-setter cases |
| Convert.ConvertFileOnlySpec | bcconvert.py:204-219 | `convert_file_only` on the map of files: the decode error, the pipe, and the removal and RuntimeError after a non-zero return code; `ConvertFileOnly` is proved against it |
| Convert.ConvertFileOnly | bcconvert.py:204-219 | a decode error leaves after metaflac has run but before the flac | lame pipe runs; a non-zero return code removes the output, ignoring a missing one, and raises; the new files equal the specification |
| Convert.ConvertSpec | bcconvert.py:222-241 | `convert_flac` on the map of files; `ConvertFlac` is proved against it, and the lemmas below state what it does |
| Convert.ConvertFlac | bcconvert.py:222-241 | skip, convert, tag and delete in that order; the outcome and the new files equal the specification for the `.mp3` path of the source |
| Convert.UnchangedUnlessEncoded | bcconvert.py:214-235 | a skip, an undecodable listing and a failed encode leave every file as it was; a skip happens exactly when the output exists, and a quiet failure exactly when lame fails |
| Convert.OnlyOutputAndSourceChange | bcconvert.py:204-241 | no path other than the output and the source is created, removed or changed |
| Convert.EscapingErrors | bcconvert.py:231-240 | the only exceptions that leave `convert_flac` are a decode error, a bad track number and a vanished source |
| Convert.SourceDeletedOnlyAfterTagging | bcconvert.py:228-240 | the source disappears only in a successful conversion, once the output holds the tag the setters make from lame's empty tag |
| Convert.ConvertedExactly | bcconvert.py:222-241 | a run returns the `.mp3` path exactly when the output was absent, the listing decoded, lame succeeded, every setter succeeded and the source was present; a run that returns it has removed the source |
| Convert.ConvertedTagFollowsListing | bcconvert.py:228-240 | a converted file's tag holds, for each field, the last value the listing gives it, and is empty where the listing gives none |
| Convert.FirstStageFailureMasked | bcconvert.py:201 | the decoder's return code never changes the outcome |
| Convert.BadTrackNumberStrandsOutput | bcconvert.py:231-240 | a bad track number leaves the output with lame's empty tag and keeps the source; the listing then holds a track number `int()` rejects |
| Convert.OutputLeftBehind | bcconvert.py:214-240 | the output exists after a run exactly when the run did not stop at an undecodable listing or a failed encode |
| Convert.RerunSkips | bcconvert.py:224-226 | a second run skips the source and changes nothing exactly when the first left an output behind |
| MainLoop.Unzip | bcconvert.py:86-99 | `unzip_serial` raises exactly when the archive's name raises in `generate_dest_dir_name`; it unpacks exactly when that name is present and non-empty and its join with the destination root does not exist, and then into that join; a skipped archive changes nothing, and an unpacked one gets a directory that did not exist before, which exists afterwards |
| MainLoop.UnzipOnce | bcconvert.py:90-95 | once `unzip_serial` has seen an archive, a second call on it skips it and changes nothing |
| MainLoop.SettledGrows | bcconvert.py:91-94 | an archive skipped because its directory exists stays skipped as more directories are created |
| MainLoop.UnpackedJobs | bcconvert.py:248-252 | the `.flac` files under the directory an archive was unpacked into, or none when it was skipped; its lemmas are `UnpackedJobsCases`, `UnpackedJobsCollect`, `ArchiveJobsAreFlac` and `ArchiveJobsSettle` |
| MainLoop.UnpackedJobsCases | bcconvert.py:86-99 | one archive either raises (exactly when its name raises), or has a new destination and adds that directory and every `.flac` file `get_all_matching` finds under it, or adds nothing |
| MainLoop.UnpackedJobsCollect | bcconvert.py:248-252 | one archive collects exactly the sources under the directory it creates: all of them, and nothing else |
| MainLoop.ArchiveJobs | bcconvert.py:247-252 | the inner loops over one path's archives as a fold that threads the existing directories; its lemmas are `ArchiveJobsStopsAtError`, `ArchiveJobsSettle`, `ArchiveJobsSettled`, `ArchiveJobsCollect` and `ArchiveJobsNothingLost` |
| MainLoop.Jobs | bcconvert.py:244-252 | `main_loop`'s list as a fold over the command-line paths; its lemmas are `JobsAreFlac`, `JobsAppend`, `JobsSettle`, `JobsSettled`, `JobsCollect`, `JobsNothingLost`, `RepeatedPathsAddNothing` and `ArchiveReachedTwice` |
| MainLoop.AppendEach | bcconvert.py:251-252 | appending items one at a time gives the list followed by the items |
| MainLoop.AppendArchive | bcconvert.py:248-252 | one archive adds the `.flac` files under its new directory, or nothing when it was skipped, or raises |
| MainLoop.ArchiveJobsStopsAtError | bcconvert.py:247-248 | once an archive's name raises, the archives after it are never reached |
| MainLoop.CollectArchives | bcconvert.py:247-252 | the loop over one path's archives equals `ArchiveJobs`, including the directories it creates and the error that ends it |
| MainLoop.JobsStopsAtError | bcconvert.py:246-248 | once a path's archives raise, the paths after it are never reached |
| MainLoop.CollectJobs | bcconvert.py:244-252 | `main_loop`'s list of conversions, path by path, equals `Jobs`, including the directories created and the error that ends the loop |
| MainLoop.ArchiveJobsAreFlac | bcconvert.py:247-252 | every file collected from the archives ends with `.flac` |
| MainLoop.JobsAreFlac | bcconvert.py:244-252 | every collected source ends with `.flac`, so no conversion writes over its own source |
| MainLoop.ArchiveJobsSettle | bcconvert.py:247-252 | after a list of archives, every one of them would be skipped by `unzip_serial`, and every directory that existed still exists |
| MainLoop.ArchiveJobsSettled | bcconvert.py:247-252 | archives that would all be skipped contribute nothing and create nothing |
| MainLoop.JobsSettle | bcconvert.py:246-252 | after the paths, every archive under each of them would be skipped, and every directory that existed still exists |
| MainLoop.JobsSettled | bcconvert.py:246-252 | paths whose archives would all be skipped contribute nothing and create nothing |
| MainLoop.JobsAppend | bcconvert.py:246-252 | later paths add their sources after those of earlier paths, starting from the directories the earlier paths left; an error in the earlier paths ends the loop |
| MainLoop.SettledPathAddsNothing | bcconvert.py:246-252 | a path whose archives were all unpacked or skipped by earlier paths adds nothing |
| MainLoop.RepeatedPathsAddNothing | bcconvert.py:246-252 | naming the same paths twice gives the same list as naming them once |
| MainLoop.CollectsNewThen | bcconvert.py:246-252 | two stretches of the loop that each collect exactly the sources of the directories they create together collect exactly those of all the directories created |
| MainLoop.CollectsFresh | bcconvert.py:93-99 | a directory created by unpacking contributes exactly the `.flac` files under it |
| MainLoop.ArchiveJobsCollect | bcconvert.py:247-252 | one path's archives collect exactly the sources under the directories they create: every source of each such directory is in the list, and every listed source lies under one |
| MainLoop.JobsCollect | bcconvert.py:244-252 | the whole list is exactly the sources under the directories the run creates, in both directions |
| MainLoop.ArchiveJobsNothingLost | bcconvert.py:247-252 | an archive among a path's archives whose destination did not exist has that directory created and every `.flac` file under it in the list |
| MainLoop.JobsNothingLost | bcconvert.py:244-252 | an archive under any command-line path whose destination did not exist before the run is unpacked, and every `.flac` file under its directory is in the list |
| MainLoop.ArchiveReachedTwice | bcconvert.py:246-252 | an archive named on the command line after a directory that holds it adds nothing, because the directory's walk already unpacked it |

## Left out

- Concurrency: `asyncio.gather`, the concurrent fan-out in `main_loop` and the overlap of tag
  extraction with the encode are not modelled. One file's conversion runs sequentially. The two
  calls of `get_tag_setters` parse the same output, so both are one parse result.
- Processes: `create_subprocess_exec`, the pipe and `check_commands` are not modelled. Only
  the metaflac output and the return codes are inputs.
- Archives: `makedirs` and `extractall` are not modelled. An unpacked archive's directory is
  added to the set of existing paths, and what lies under it is what `listing` says. The
  parent directories `makedirs` also creates are not added. Compared as strings, a later
  destination never equals one of them, since each name `generate_dest_dir_name` returns holds
  a `/` between two non-empty parts; once `.` and `..` are resolved it can (see the next line).
- MainLoop.Unzip: `os.path.exists` reads the set of existing paths, which the loops carry as
  a value rather than as a shared filesystem object. Paths are compared as strings, so `.` and
  `..` components are not resolved. `x - ...zip` fits the check pattern as `x` and `..`, so its
  destination `root/x/..` is `root` itself: the source skips it when `root/x` exists and otherwise
  `makedirs` raises FileExistsError, while the model unpacks it into a new `root/x/..`.
- Directory walks: `os.walk` and `os.listdir` are the parameter `listing`, fixed for the whole
  run. A walk of a path therefore does not see the files unpacked into it during the run.
- Tag storage: `eyed3.load` and the ID3 v2.4 serialisation are not modelled. A file is either an
  MP3 with a tag record, or anything else.
- Other I/O: logging, `argparse`, `parse_args` and `main` are not modelled.
- UTF-8 decoding: the `decode` parameter stands for `bytes.decode('utf-8')`.
- Unicode `\w`, `\s` and `\d` in `HAPPY_ZIP_PAT`: the predicate `inUnicodeClass` stands for these
  classes above ASCII.
- Text.Lower: only ASCII capitals are lowered. Python's `str.lower()` also lowers other letters,
  and a few of them change length, so a non-ASCII path can match an extension differently.
- Tags.ParseInt: only ASCII digits are accepted, and only space, tab, newline, vertical tab,
  form feed, carriage return, U+0085 and U+00A0 are skipped around them. Python's `int()`
  also accepts other Unicode decimal digits and skips other Unicode spaces above U+00FF.
  The model follows `int()` as in Python 3.6 to 3.9.13; the `loop=` arguments at
  bcconvert.py:187 and 233 keep the program below 3.10. Two releases in that range differ.
  From 3.7.14, 3.8.14 and 3.9.14, `int()` rejects a text of more than 4300 digits, which the
  model converts, so there a 4301-digit track number strands the output instead of converting.
  On 3.5, `int()` rejects the underscores between digits that the model accepts.
- Convert.PipeCmds: what lame leaves behind when it fails is an input (`partialOutput`); the
  contents of a partial file are not modelled.
- Convert.FileSystem: paths are compared as strings, with no normalisation, symbolic links or
  case-insensitive file systems.
