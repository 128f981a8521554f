/**
 * Path and name derivation: `os.path.splitext` and the `.mp3` path beside each
 * source, the extension filter of `get_all_matching`, and the `Artist/Album`
 * directory name that `generate_dest_dir_name` reads out of an archive's name.
 */
module Paths {
  import opened Wrappers
  import opened Text

  type Path = string

  /**
   * `posixpath.splitext`: the extension starts at the last dot of the last path
   * component, unless everything before that dot in the component is dots.
   */
  function SplitExt(p: Path): (r: (Path, string))
    ensures r.0 + r.1 == p
    ensures r.1 == [] || (r.1[0] == '.' && '/' !in r.1 && '.' !in r.1[1..])
    ensures r.1 != [] <==>
      RFind(p, '.') > RFind(p, '/') && exists i :: RFind(p, '/') < i < RFind(p, '.') && p[i] != '.'
    ensures r.1 != [] ==> r.1 == p[RFind(p, '.')..]
  {
    var sep := RFind(p, '/');
    var dot := RFind(p, '.');
    if dot > sep && exists i :: sep < i < dot && p[i] != '.' then
      assert p[..dot] + p[dot..] == p;
      assert forall i :: 0 <= i < |p| - dot - 1 ==> p[dot..][1..][i] == p[dot + 1 + i];
      (p[..dot], p[dot..])
    else (p, [])
  }

  /** The output path: the source path with its extension replaced by `.mp3`. */
  function Mp3Path(flac: Path): (r: Path)
    ensures EndsWith(r, ".mp3")
  {
    var root := SplitExt(flac).0;
    assert (root + ".mp3")[|root|..] == ".mp3";
    root + ".mp3"
  }

  /**
   * Every source `get_all_matching` selects, in any case (`Track.FLAC`, `a..flac`),
   * loses exactly its last five characters when its last path component has some
   * character other than a dot before the extension.
   */
  lemma Mp3PathOfFlac(flac: Path, i: nat)
    requires EndsWithFold(flac, ".flac")
    requires i < |flac| - 5 && flac[i] != '.' && flac[i] != '/'
    requires forall k :: i < k < |flac| - 5 ==> flac[k] != '/'
    ensures Mp3Path(flac) == flac[..|flac| - 5] + ".mp3"
  {
    var dot := |flac| - 5;
    assert Lower(flac)[dot..] == ".flac";
    forall k | dot <= k < |flac|
      ensures flac[k] != '/' && (flac[k] == '.' <==> k == dot)
    {
      assert Lower(flac)[k] == Lower(flac)[dot..][k - dot];
    }
    assert flac[dot] == '.';
    assert RFind(flac, '.') == dot;
    assert RFind(flac, '/') < i;
  }

  /**
   * The output never overwrites its source: a path that ends with `.flac` in any
   * case differs from its `.mp3` path.
   */
  lemma Mp3PathDiffers(flac: Path)
    requires EndsWithFold(flac, ".flac")
    ensures Mp3Path(flac) != flac
  {
    var m := Mp3Path(flac);
    assert Lower(flac)[|flac| - 1] == 'c';
    assert m[|m| - 1] == '3';
  }

  /** `os.path.basename`: the text after the last `/`. */
  function Basename(p: Path): (r: Path)
    ensures '/' !in r
    ensures EndsWith(p, r)
    ensures |r| == |p| || p[|p| - |r| - 1] == '/'
  {
    var i := RFind(p, '/');
    var r := p[i + 1..];
    assert forall k :: 0 <= k < |r| ==> r[k] != '/' by {
      forall k | 0 <= k < |r| ensures r[k] != '/' {
        assert r[k] == p[i + 1 + k];
      }
    }
    r
  }

  /** Joining two components that hold no `/` puts exactly one `/` between them. */
  lemma JoinPathPlain(a: Path, b: Path)
    requires |a| >= 1 && '/' !in a && '/' !in b
    ensures JoinPath(a, b) == a + "/" + b
  {
    assert a[|a| - 1] in a;
    if |b| > 0 { assert b[0] in b; }
  }

  /** `os.path.join(a, b)` for two components. */
  function JoinPath(a: Path, b: Path): Path
  {
    if |b| > 0 && b[0] == '/' then b
    else if a == [] || a[|a| - 1] == '/' then a + b
    else a + "/" + b
  }

  // ---------------------------------------------------------------------------
  // get_all_matching

  /** The files of a listing that end with `ext`, compared case-insensitively, in listing order. */
  function FilterExt(entries: seq<Path>, ext: string): (r: seq<Path>)
    ensures |r| <= |entries|
    ensures forall p :: p in r <==> p in entries && EndsWithFold(p, ext)
  {
    if entries == [] then []
    else if EndsWithFold(entries[0], ext) then [entries[0]] + FilterExt(entries[1..], ext)
    else FilterExt(entries[1..], ext)
  }

  /**
   * `get_all_matching(path, ext)`: `path` alone when it already has the
   * extension, otherwise the matching files among `entries`, which stand for
   * what `os.walk` (or `os.listdir` without descending) yields under `path`.
   */
  function GetAllMatching(path: Path, ext: string, entries: seq<Path>): seq<Path>
  {
    if EndsWithFold(path, ext) then [path] else FilterExt(entries, ext)
  }

  /** The filter keeps the listing's order: filtering a concatenation filters each part. */
  lemma {:induction false} FilterExtAppend(a: seq<Path>, b: seq<Path>, ext: string)
    ensures FilterExt(a + b, ext) == FilterExt(a, ext) + FilterExt(b, ext)
  {
    if a == [] {
      assert a + b == b;
    } else {
      assert (a + b)[0] == a[0];
      assert (a + b)[1..] == a[1..] + b;
      FilterExtAppend(a[1..], b, ext);
    }
  }

  /** What `get_all_matching` yields, in both of its cases. */
  lemma GetAllMatchingYields(path: Path, ext: string, entries: seq<Path>)
    ensures EndsWithFold(path, ext) ==> GetAllMatching(path, ext, entries) == [path]
    ensures !EndsWithFold(path, ext) ==>
      forall p :: p in GetAllMatching(path, ext, entries) <==> p in entries && EndsWithFold(p, ext)
    ensures forall p :: p in GetAllMatching(path, ext, entries) ==> EndsWithFold(p, ext)
  {
  }

  /**
   * Only the extension's letters matter, not their case: two extensions that lower
   * to the same text select the same files.
   */
  lemma MatchingIgnoresCase(path: Path, ext1: string, ext2: string, entries: seq<Path>)
    requires Lower(ext1) == Lower(ext2)
    ensures forall p :: EndsWithFold(p, ext1) <==> EndsWithFold(p, ext2)
    ensures GetAllMatching(path, ext1, entries) == GetAllMatching(path, ext2, entries)
  {
    FilterExtSameFold(entries, ext1, ext2);
  }

  lemma {:induction false} FilterExtSameFold(entries: seq<Path>, ext1: string, ext2: string)
    requires Lower(ext1) == Lower(ext2)
    ensures FilterExt(entries, ext1) == FilterExt(entries, ext2)
  {
    if entries != [] {
      FilterExtSameFold(entries[1..], ext1, ext2);
    }
  }

  // ---------------------------------------------------------------------------
  // generate_dest_dir_name

  /** The AssertionError raised when the archive name does not end with `.zip`. */
  datatype DestError = NotAZip(path: Path)

  /**
   * `[\w\s\d]` on a str: ASCII letters, digits, underscore and whitespace, and the
   * non-ASCII characters that `inUnicodeClass` says are word, space or digit characters.
   */
  predicate IsNameChar(c: char, inUnicodeClass: char -> bool)
  {
    || ('a' <= c <= 'z') || ('A' <= c <= 'Z') || ('0' <= c <= '9') || c == '_'
    || c == ' ' || (9 <= c as int <= 13) || (28 <= c as int <= 31)
    || (c as int >= 128 && inUnicodeClass(c))
  }

  predicate AllNameChars(s: string, inUnicodeClass: char -> bool)
  {
    |s| >= 1 && forall i :: 0 <= i < |s| ==> IsNameChar(s[i], inUnicodeClass)
  }

  const Dash: string := " - "

  /**
   * `HAPPY_ZIP_PAT.match(name)`, `\A([\w\s\d]+) - ([\w\s\d]+)\Z`: the class has no
   * `-`, so the one `-` in the name must be the separator's.
   */
  function HappyMatch(name: string, inUnicodeClass: char -> bool): Option<(string, string)>
  {
    var i := Find(name, '-');
    if 2 <= i && i + 2 < |name| && name[i - 1] == ' ' && name[i + 1] == ' '
       && AllNameChars(name[..i - 1], inUnicodeClass) && AllNameChars(name[i + 2..], inUnicodeClass)
    then Some((name[..i - 1], name[i + 2..]))
    else None
  }

  /** The happy pattern accepts exactly the names `artist - album` with both parts from the class. */
  lemma HappyMatchIff(name: string, inUnicodeClass: char -> bool, artist: string, album: string)
    ensures HappyMatch(name, inUnicodeClass) == Some((artist, album)) <==>
      name == artist + Dash + album && AllNameChars(artist, inUnicodeClass) && AllNameChars(album, inUnicodeClass)
  {
    if name == artist + Dash + album && AllNameChars(artist, inUnicodeClass) && AllNameChars(album, inUnicodeClass) {
      var i := |artist| + 1;
      assert name[i] == '-';
      assert forall k :: 0 <= k < i ==> name[k] != '-' by {
        forall k | 0 <= k < i ensures name[k] != '-' {
          if k < |artist| { assert name[k] == artist[k]; assert IsNameChar(artist[k], inUnicodeClass); }
        }
      }
      assert Find(name, '-') == i;
      assert name[..i - 1] == artist;
      assert name[i + 2..] == album;
    }
    if HappyMatch(name, inUnicodeClass) == Some((artist, album)) {
      var i := Find(name, '-');
      assert name == name[..i - 1] + Dash + name[i + 2..];
    }
  }

  /** `s` holds ` - ` at position `j`. */
  predicate DashAt(s: string, j: int)
  {
    0 <= j && j + 3 <= |s| && s[j..j + 3] == Dash
  }

  /** Position of the last ` - ` at or below `i` that leaves text on both sides. */
  function LastDash(s: string, i: nat): (r: Option<nat>)
    ensures r.Some? ==> 1 <= r.value <= i && r.value + 3 < |s| && DashAt(s, r.value)
    ensures r.Some? ==> forall j :: r.value < j <= i && j + 3 < |s| ==> !DashAt(s, j)
  {
    if i < 1 then None
    else if i + 3 < |s| && DashAt(s, i) then Some(i)
    else LastDash(s, i - 1)
  }

  /** The scan finds a separator whenever there is one in range. */
  lemma {:induction false} LastDashFinds(s: string, i: nat, j: nat)
    requires 1 <= j <= i && j + 3 < |s| && DashAt(s, j)
    ensures LastDash(s, i).Some? && LastDash(s, i).value >= j
  {
    if i > j && !(i + 3 < |s| && DashAt(s, i)) {
      LastDashFinds(s, i - 1, j);
    }
  }

  /**
   * `CHECK_ZIP_PAT.match(name)`, `\A(.+) - (.+)\Z`: `.` does not match a newline,
   * and the greedy first group makes the split at the last ` - ` that leaves a
   * non-empty album.
   */
  function CheckMatch(name: string): Option<(string, string)>
  {
    if '\n' in name || |name| < 5 then None
    else match LastDash(name, |name| - 4)
      case None => None
      case Some(i) => Some((name[..i], name[i + 3..]))
  }

  /** A split `a - b` of `name` puts a separator at `|a|`. */
  lemma SplitDash(name: string, a: string, b: string)
    requires name == a + Dash + b
    ensures DashAt(name, |a|)
  {
    assert name[|a|..|a| + 3] == Dash;
  }

  /**
   * What the lenient pattern returns is a split of the name into two non-empty
   * parts around ` - `, at the last place that allows it.
   */
  lemma CheckMatchSound(name: string)
    requires CheckMatch(name).Some?
    ensures '\n' !in name
    ensures name == CheckMatch(name).value.0 + Dash + CheckMatch(name).value.1
    ensures |CheckMatch(name).value.0| >= 1 && |CheckMatch(name).value.1| >= 1
    ensures forall a, b :: name == a + Dash + b && |a| >= 1 && |b| >= 1 ==> |a| <= |CheckMatch(name).value.0|
  {
    var i := LastDash(name, |name| - 4).value;
    assert name == name[..i] + name[i..i + 3] + name[i + 3..];
    forall a, b | name == a + Dash + b && |a| >= 1 && |b| >= 1 ensures |a| <= i {
      SplitDash(name, a, b);
    }
  }

  /** The lenient pattern fails only on a newline or when no non-empty split exists. */
  lemma CheckMatchComplete(name: string, a: string, b: string)
    requires '\n' !in name && name == a + Dash + b && |a| >= 1 && |b| >= 1
    ensures CheckMatch(name).Some?
  {
    SplitDash(name, a, b);
    LastDashFinds(name, |name| - 4, |a|);
  }

  /** Characters of the strict pattern's class are never `/`, `.` or `-`. */
  lemma NameCharsExclude(s: string, inUnicodeClass: char -> bool)
    requires AllNameChars(s, inUnicodeClass)
    ensures '/' !in s && '.' !in s && '-' !in s
  {
    forall k | 0 <= k < |s| ensures s[k] != '/' && s[k] != '.' && s[k] != '-' {
      assert IsNameChar(s[k], inUnicodeClass);
    }
  }

  /**
   * Where the strict pattern matches a name without newlines, the lenient one
   * would have made the same split: the fallback only changes the names the
   * strict pattern refuses.
   */
  lemma HappyAgreesWithCheck(name: string, inUnicodeClass: char -> bool)
    requires HappyMatch(name, inUnicodeClass).Some? && '\n' !in name
    ensures CheckMatch(name) == HappyMatch(name, inUnicodeClass)
  {
    var (artist, album) := HappyMatch(name, inUnicodeClass).value;
    HappyMatchIff(name, inUnicodeClass, artist, album);
    CheckMatchComplete(name, artist, album);
    CheckMatchSound(name);
    var (a, b) := CheckMatch(name).value;
    NameCharsExclude(album, inUnicodeClass);
    SplitUnique(name, artist, album, a, b);
  }

  /**
   * A split `a - b` that is no shorter on the left than a split `artist - album`
   * whose album has no `-` is that same split.
   */
  lemma SplitUnique(name: string, artist: string, album: string, a: string, b: string)
    requires name == artist + Dash + album && '-' !in album
    requires name == a + Dash + b && |a| >= |artist|
    ensures a == artist && b == album
  {
    SplitDash(name, a, b);
    assert name[|a| + 1] == '-';
    forall k | |artist| + 3 <= k < |name| ensures name[k] != '-' {
      assert name[k] == album[k - |artist| - 3];
    }
    assert |a| == |artist|;
    assert a == name[..|a|] && artist == name[..|artist|];
    assert b == name[|a| + 3..] && album == name[|artist| + 3..];
  }

  /**
   * `generate_dest_dir_name(path)`: the archive's base name without `.zip`, read as
   * `Artist - Album` by the strict pattern, else by the lenient one, giving
   * `Artist/Album`; None when neither matches.
   */
  function DestDirName(path: Path, inUnicodeClass: char -> bool): Result<Option<Path>, DestError>
  {
    var (filename, ext) := SplitExt(path);
    var name := Basename(filename);
    if Lower(ext) != ".zip" then Err(NotAZip(path))
    else match HappyMatch(name, inUnicodeClass)
      case Some((artist, album)) => Ok(Some(JoinPath(artist, album)))
      case None =>
        match CheckMatch(name)
        case Some((artist, album)) => Ok(Some(JoinPath(artist, album)))
        case None => Ok(None)
  }

  /** What the directory name is made of: the two parts of the base name, joined by one `/`. */
  lemma DestDirNameParts(path: Path, inUnicodeClass: char -> bool)
    requires DestDirName(path, inUnicodeClass).Ok? && DestDirName(path, inUnicodeClass).value.Some?
    ensures exists artist, album ::
      (Basename(SplitExt(path).0) == artist + Dash + album && |artist| >= 1 && |album| >= 1
       && DestDirName(path, inUnicodeClass).value.value == artist + "/" + album)
  {
    var name := Basename(SplitExt(path).0);
    match HappyMatch(name, inUnicodeClass)
    case Some((artist, album)) =>
      HappyMatchIff(name, inUnicodeClass, artist, album);
      JoinPathPlain(artist, album);
    case None =>
      CheckMatchSound(name);
      var (artist, album) := CheckMatch(name).value;
      JoinPathPlain(artist, album);
  }

  /** Only `.zip` archives are accepted, in any case; anything else trips the assertion. */
  lemma DestDirNameNeedsZip(path: Path, inUnicodeClass: char -> bool)
    ensures DestDirName(path, inUnicodeClass).Err? <==> Lower(SplitExt(path).1) != ".zip"
  {
  }

  /** The last `c` in `s` is at `k` when `s[k] == c` and no later element is `c`. */
  lemma RFindAt(s: string, c: char, k: nat)
    requires k < |s| && s[k] == c
    requires forall j :: k < j < |s| ==> s[j] != c
    ensures RFind(s, c) == k
  {
  }

  /** `dir/name.zip`, with a name free of `/` and `.` that starts with something other than a dot. */
  lemma SplitZipPath(dir: Path, name: string)
    requires |name| >= 1 && '/' !in name && '.' !in name
    ensures SplitExt(dir + "/" + name + ".zip") == (dir + "/" + name, ".zip")
    ensures Basename(dir + "/" + name) == name
  {
    var stem := dir + "/" + name;
    var path := stem + ".zip";
    var sep := |dir|;
    var dot := |stem|;
    forall j | sep < j < |path| ensures path[j] != '/' {
      if j < dot { assert path[j] == name[j - sep - 1]; }
    }
    RFindAt(path, '/', sep);
    forall j | dot < j < |path| ensures path[j] != '.' { }
    RFindAt(path, '.', dot);
    assert path[sep + 1] == name[0];
    assert path[..dot] == stem && path[dot..] == ".zip";
    forall j | sep < j < |stem| ensures stem[j] != '/' {
      assert stem[j] == name[j - sep - 1];
    }
    RFindAt(stem, '/', sep);
    assert stem[sep + 1..] == name;
  }

  lemma LowerZip()
    ensures Lower(".zip") == ".zip"
  {
  }

  /**
   * Naming round trip: an archive `dir/Artist - Album.zip` whose two parts are
   * word, space and digit characters unpacks into `Artist/Album`.
   */
  lemma DestDirNameRoundTrip(dir: Path, artist: string, album: string, inUnicodeClass: char -> bool)
    requires AllNameChars(artist, inUnicodeClass) && AllNameChars(album, inUnicodeClass)
    ensures DestDirName(dir + "/" + artist + Dash + album + ".zip", inUnicodeClass) == Ok(Some(artist + "/" + album))
  {
    var name := artist + Dash + album;
    var path := dir + "/" + name + ".zip";
    assert path == dir + "/" + artist + Dash + album + ".zip";
    NameCharsExclude(artist, inUnicodeClass);
    NameCharsExclude(album, inUnicodeClass);
    assert '/' !in name && '.' !in name;
    SplitZipPath(dir, name);
    HappyMatchIff(name, inUnicodeClass, artist, album);
    JoinPathPlain(artist, album);
    LowerZip();
  }
}
