/**
 * The six tag fields the converter carries over, the deferred assignments that
 * `_setter` builds, Python's `int()` used on track numbers, and the fold that
 * `set_tags` performs over an ID3 tag.
 */
module Tags {
  import opened Wrappers
  import opened Text

  /** The tag attributes the setters write (`title`, `artist`, ... `album_artist`). */
  datatype Field = Title | Artist | Album | TrackNumber | Year | AlbumArtist

  /** A deferred setter: `_setter(attr, f)(value)`, applied to a tag later. */
  datatype TagAssignment = TagAssignment(field: Field, value: string)

  /** `TAG_MAP`: the Vorbis comment keys that are kept, looked up case-sensitively. */
  function FieldOf(key: seq<Byte>): (f: Option<Field>)
    ensures f == Some(Title) <==> key == "TITLE"
    ensures f == Some(Artist) <==> key == "ARTIST"
    ensures f == Some(Album) <==> key == "ALBUM"
    ensures f == Some(TrackNumber) <==> key == "TRACKNUMBER"
    ensures f == Some(Year) <==> key == "DATE"
    ensures f == Some(AlbumArtist) <==> key == "ALBUMARTIST"
  {
    if key == "TITLE" then Some(Title)
    else if key == "ARTIST" then Some(Artist)
    else if key == "ALBUM" then Some(Album)
    else if key == "TRACKNUMBER" then Some(TrackNumber)
    else if key == "DATE" then Some(Year)
    else if key == "ALBUMARTIST" then Some(AlbumArtist)
    else None
  }

  // ---------------------------------------------------------------------------
  // Python's int() on a str, base 10

  /**
    * The characters below U+0100 that `int()` skips around its argument: the ASCII
    * space, tab, newline, vertical tab, form feed and carriage return, and the two
    * Latin-1 spaces U+0085 and U+00A0. The ASCII separators 0x1C-0x1F are not skipped.
    */
  predicate IsIntSpace(c: char)
  {
    c == ' ' || 9 <= c as int <= 13 || c as int == 0x85 || c as int == 0xA0
  }

  predicate IsDigit(c: char)
  {
    '0' <= c <= '9'
  }

  function DigitValue(c: char): (d: nat)
    requires IsDigit(c)
    ensures d < 10
  {
    c as int - '0' as int
  }

  function DigitChar(d: nat): (c: char)
    requires d < 10
    ensures IsDigit(c) && DigitValue(c) == d
  {
    ('0' as int + d) as char
  }

  function TrimEnd(s: string): (r: string)
    ensures |r| <= |s| && r == s[..|r|]
    ensures r == [] || !IsIntSpace(r[|r| - 1])
    ensures forall i :: |r| <= i < |s| ==> IsIntSpace(s[i])
  {
    if s != [] && IsIntSpace(s[|s| - 1]) then TrimEnd(s[..|s| - 1]) else s
  }

  /** The number of whitespace characters `s` starts with. */
  function LeadingSpace(s: string): (n: nat)
    ensures n <= |s|
    ensures forall i :: 0 <= i < n ==> IsIntSpace(s[i])
    ensures n < |s| ==> !IsIntSpace(s[n])
  {
    if s == [] || !IsIntSpace(s[0]) then 0 else 1 + LeadingSpace(s[1..])
  }

  /** `s.strip()`, for the whitespace `int()` skips. */
  function Strip(s: string): string
  {
    TrimEnd(s[LeadingSpace(s)..])
  }

  /**
   * The digits `int()` accepts in base 10: ASCII digits, with single underscores
   * allowed between two digits.
   */
  predicate ValidDigits(s: string)
  {
    && |s| >= 1
    && IsDigit(s[0]) && IsDigit(s[|s| - 1])
    && (forall i :: 0 <= i < |s| ==> IsDigit(s[i]) || s[i] == '_')
    && (forall i :: 0 <= i < |s| - 1 ==> !(s[i] == '_' && s[i + 1] == '_'))
  }

  /** The number the digits denote, underscores ignored. */
  function DigitsValue(s: string): nat
    requires forall i :: 0 <= i < |s| ==> IsDigit(s[i]) || s[i] == '_'
  {
    if s == [] then 0
    else if s[|s| - 1] == '_' then DigitsValue(s[..|s| - 1])
    else 10 * DigitsValue(s[..|s| - 1]) + DigitValue(s[|s| - 1])
  }

  /** `int(s)`: None where Python raises ValueError. */
  function ParseInt(s: string): Option<int>
  {
    ParseSigned(Strip(s))
  }

  /** `int()` on text that has already been stripped: an optional sign, then digits. */
  function ParseSigned(t: string): Option<int>
  {
    if t == [] then None
    else
      var negative := t[0] == '-';
      var body := if t[0] == '-' || t[0] == '+' then t[1..] else t;
      if ValidDigits(body) then
        var magnitude: int := DigitsValue(body);
        Some(if negative then -magnitude else magnitude)
      else None
  }

  lemma ParseSignedDigits(negative: bool, digits: string)
    requires ValidDigits(digits)
    ensures ParseSigned((if negative then "-" else "") + digits)
      == Some(if negative then -(DigitsValue(digits) as int) else DigitsValue(digits))
  {
    var t := (if negative then "-" else "") + digits;
    if negative {
      assert t[0] == '-';
      assert t[1..] == digits;
    } else {
      assert t == digits;
      assert t[0] != '-' && t[0] != '+';
    }
  }

  /** `str(n)` for a natural number: its decimal digits, most significant first. */
  function ShowNat(n: nat): (s: string)
    ensures |s| >= 1
    ensures forall i :: 0 <= i < |s| ==> IsDigit(s[i])
  {
    if n < 10 then [DigitChar(n)] else ShowNat(n / 10) + [DigitChar(n % 10)]
  }

  /** `str(n)`. */
  function ShowInt(n: int): string
  {
    if n < 0 then "-" + ShowNat(-n) else ShowNat(n)
  }

  lemma {:induction false} DigitsValueShowNat(n: nat)
    ensures DigitsValue(ShowNat(n)) == n
  {
    var s := ShowNat(n);
    if n >= 10 {
      assert s[..|s| - 1] == ShowNat(n / 10);
      DigitsValueShowNat(n / 10);
    }
  }

  lemma StripUnpadded(s: string)
    requires s != [] && !IsIntSpace(s[0]) && !IsIntSpace(s[|s| - 1])
    ensures Strip(s) == s
  {
    assert LeadingSpace(s) == 0;
    assert s[0..] == s;
  }

  lemma ShowNatValid(n: nat)
    ensures ValidDigits(ShowNat(n))
  {
  }

  /** `int(str(n)) == n`: every integer survives conversion to text and back. */
  lemma ParseIntShowInt(n: int)
    ensures ParseInt(ShowInt(n)) == Some(n)
  {
    var m: nat := if n < 0 then -n else n;
    var digits := ShowNat(m);
    DigitsValueShowNat(m);
    ShowNatValid(m);
    var last := digits[|digits| - 1];
    assert IsDigit(last) && !IsIntSpace(last);
    if n < 0 {
      var s := "-" + digits;
      assert s == ShowInt(n);
      assert s[0] == '-' && s[|s| - 1] == last;
      StripUnpadded(s);
      ParseSignedDigits(true, digits);
    } else {
      assert digits == ShowInt(n);
      assert IsDigit(digits[0]) && !IsIntSpace(digits[0]);
      StripUnpadded(digits);
      ParseSignedDigits(false, digits);
      assert "" + digits == digits;
    }
  }

  /** A plain track number parses to its value. */
  lemma ParseIntPlain()
    ensures ParseInt("7") == Some(7)
  {
    ParseIntShowInt(7);
  }

  /** Whitespace around the number is stripped and leading zeros are accepted, as by `int()`. */
  lemma ParseIntPadded()
    ensures ParseInt(" 07\n") == Some(7)
  {
    var padded := " 07\n";
    assert LeadingSpace(padded[1..]) == 0;
    assert LeadingSpace(padded) == 1;
    assert padded[1..] == "07\n";
    assert "07\n"[..2] == "07";
    assert TrimEnd("07\n") == TrimEnd("07") == "07";
    assert Strip(padded) == "07";
    assert ValidDigits("07");
    assert "07"[..1] == "0";
    assert DigitsValue("07") == 7;
    ParseSignedDigits(false, "07");
    assert "" + "07" == "07";
  }

  /** A minus sign and single underscores between digits are accepted. */
  lemma ParseIntSignedGrouped()
    ensures ParseInt("-1_000") == Some(-1000)
  {
    var neg := "-1_000";
    StripUnpadded(neg);
    assert "1_000"[..4] == "1_00";
    assert "1_00"[..3] == "1_0";
    assert "1_0"[..2] == "1_";
    assert "1_"[..1] == "1";
    assert DigitsValue("1_000") == 1000;
    assert ValidDigits("1_000");
    ParseSignedDigits(true, "1_000");
    assert "-" + "1_000" == neg;
  }

  /** Text that is not a number, a sign followed by a blank and a doubled underscore are rejected. */
  lemma ParseIntRejects()
    ensures ParseInt("seven") == None
    ensures ParseInt("") == None
    ensures ParseInt("- 5") == None
    ensures ParseInt("1__0") == None
  {
    StripUnpadded("seven");
    assert !IsDigit("seven"[0]);
    StripUnpadded("- 5");
    assert "- 5"[1..] == " 5";
    assert !IsDigit(" 5"[0]);
    StripUnpadded("1__0");
    assert "1__0"[1] == '_' && "1__0"[2] == '_';
  }

  /**
   * The ASCII information separators are not skipped: a number after a file
   * separator (U+001C) is rejected, although `str.isspace()` holds of it.
   */
  lemma ParseIntKeepsSeparators()
    ensures ParseInt("\U{1C}7") == None
  {
    StripUnpadded("\U{1C}7");
    assert !IsDigit("\U{1C}7"[0]);
  }

  // ---------------------------------------------------------------------------
  // The tag record and the setters

  /** eyed3's `track_num`: a (number, total) pair, each possibly absent. */
  datatype TrackNum = TrackNum(number: Option<int>, total: Option<int>)

  /** The attributes of an ID3 tag that the setters write. */
  datatype Tag = Tag(
    title: Option<string>,
    artist: Option<string>,
    album: Option<string>,
    trackNum: TrackNum,
    year: Option<string>,
    albumArtist: Option<string>)

  /** What one field of a tag holds. */
  datatype FieldValue = Text(text: Option<string>) | Track(track: TrackNum)

  function Get(t: Tag, f: Field): FieldValue
  {
    match f
    case Title => Text(t.title)
    case Artist => Text(t.artist)
    case Album => Text(t.album)
    case TrackNumber => Track(t.trackNum)
    case Year => Text(t.year)
    case AlbumArtist => Text(t.albumArtist)
  }

  /** The ValueError `int()` raises inside the track-number setter. */
  datatype ApplyError = BadTrackNumber(value: string)

  /**
   * The value a setter stores: the text itself, or `(int(value), None)` for the
   * track number, which fails when the text is not an integer.
   */
  function Written(a: TagAssignment): (r: Result<FieldValue, ApplyError>)
    ensures r.Ok? ==> (r.value.Track? <==> a.field == TrackNumber)
  {
    if a.field != TrackNumber then Ok(Text(Some(a.value)))
    else match ParseInt(a.value)
      case Some(n) => Ok(Track(TrackNum(Some(n), None)))
      case None => Err(BadTrackNumber(a.value))
  }

  /** `setattr(tag, attr, v)`: the tag with one field replaced. */
  function Put(t: Tag, f: Field, v: FieldValue): Tag
    requires v.Track? <==> f == TrackNumber
  {
    match f
    case Title => t.(title := v.text)
    case Artist => t.(artist := v.text)
    case Album => t.(album := v.text)
    case TrackNumber => t.(trackNum := v.track)
    case Year => t.(year := v.text)
    case AlbumArtist => t.(albumArtist := v.text)
  }

  /** `setter(tag)`: `setattr(tag, attr, f(value))`; a failing `f` leaves the tag as it was. */
  function Apply(t: Tag, a: TagAssignment): Result<Tag, ApplyError>
  {
    match Written(a)
    case Err(e) => Err(e)
    case Ok(v) => Ok(Put(t, a.field, v))
  }

  /** One setter writes its own field with the value it converts and leaves the other five alone. */
  lemma ApplyWritesOneField(t: Tag, a: TagAssignment)
    ensures Apply(t, a).Ok? <==> Written(a).Ok?
    ensures Apply(t, a).Err? <==> a.field == TrackNumber && ParseInt(a.value).None?
    ensures Apply(t, a).Err? ==> Apply(t, a).error == Written(a).error == BadTrackNumber(a.value)
    ensures Apply(t, a).Ok? ==>
      && Get(Apply(t, a).value, a.field) == Written(a).value
      && forall f :: f != a.field ==> Get(Apply(t, a).value, f) == Get(t, f)
  {
  }

  /** The setters applied in order, stopping at the first that raises. */
  function ApplyAll(t: Tag, setters: seq<TagAssignment>): Result<Tag, ApplyError>
    decreases |setters|
  {
    if setters == [] then Ok(t)
    else match ApplyAll(t, setters[..|setters| - 1])
      case Err(e) => Err(e)
      case Ok(u) => Apply(u, setters[|setters| - 1])
  }

  /** Once a prefix of the setters fails, the whole fold fails with that prefix's error. */
  lemma {:induction false} ApplyAllStopsAtError(t: Tag, setters: seq<TagAssignment>, k: nat)
    requires k <= |setters| && ApplyAll(t, setters[..k]).Err?
    ensures ApplyAll(t, setters) == ApplyAll(t, setters[..k])
    decreases |setters| - k
  {
    if k == |setters| {
      assert setters[..k] == setters;
    } else {
      var init := setters[..|setters| - 1];
      assert init[..k] == setters[..k];
      ApplyAllStopsAtError(t, init, k);
    }
  }

  /** Index of the last setter in `setters` for field `f`, if any. */
  function LastFor(setters: seq<TagAssignment>, f: Field): (r: Option<nat>)
    ensures r.Some? ==> r.value < |setters| && setters[r.value].field == f
    ensures r.Some? ==> forall j :: r.value < j < |setters| ==> setters[j].field != f
    ensures r.None? ==> forall j :: 0 <= j < |setters| ==> setters[j].field != f
    decreases |setters|
  {
    if setters == [] then None
    else if setters[|setters| - 1].field == f then Some(|setters| - 1)
    else LastFor(setters[..|setters| - 1], f)
  }

  /**
   * Later writes win: after a successful fold, every field holds the value of the
   * last setter for it, and a field no setter names keeps its old value.
   */
  lemma {:induction false} LastWriteWins(t: Tag, setters: seq<TagAssignment>, f: Field)
    requires ApplyAll(t, setters).Ok?
    ensures LastFor(setters, f).None? ==> Get(ApplyAll(t, setters).value, f) == Get(t, f)
    ensures LastFor(setters, f).Some? ==>
      Written(setters[LastFor(setters, f).value]) == Ok(Get(ApplyAll(t, setters).value, f))
    decreases |setters|
  {
    if setters != [] {
      var init := setters[..|setters| - 1];
      var last := setters[|setters| - 1];
      assert ApplyAll(t, init).Ok?;
      var u := ApplyAll(t, init).value;
      assert ApplyAll(t, setters) == Apply(u, last);
      ApplyWritesOneField(u, last);
      if last.field == f {
        assert LastFor(setters, f) == Some(|setters| - 1);
      } else {
        LastWriteWins(t, init, f);
        assert Get(ApplyAll(t, setters).value, f) == Get(u, f);
        assert LastFor(setters, f) == LastFor(init, f);
        match LastFor(init, f)
        case Some(i) => assert setters[i] == init[i];
        case None =>
      }
    }
  }

  /**
   * The fold fails exactly when some track-number setter holds text that `int()`
   * rejects, whatever the starting tag, and the error names the first such text.
   */
  lemma {:induction false} ApplyAllFails(t: Tag, setters: seq<TagAssignment>)
    ensures ApplyAll(t, setters).Err? <==>
      exists i :: 0 <= i < |setters| && setters[i].field == TrackNumber && ParseInt(setters[i].value).None?
    ensures ApplyAll(t, setters).Err? ==>
      exists i :: 0 <= i < |setters| && setters[i].field == TrackNumber && ParseInt(setters[i].value).None?
        && ApplyAll(t, setters).error == BadTrackNumber(setters[i].value)
        && forall j :: 0 <= j < i ==> Written(setters[j]).Ok?
    decreases |setters|
  {
    if setters != [] {
      var init := setters[..|setters| - 1];
      var last := setters[|setters| - 1];
      ApplyAllFails(t, init);
      forall i | 0 <= i < |init| ensures init[i] == setters[i] { }
      if ApplyAll(t, init).Ok? {
        var u := ApplyAll(t, init).value;
        assert ApplyAll(t, setters) == Apply(u, last);
        ApplyWritesOneField(u, last);
        if ApplyAll(t, setters).Err? {
          var k := |setters| - 1;
          forall j | 0 <= j < k ensures Written(setters[j]).Ok? {
            assert init[j] == setters[j];
          }
        }
      } else {
        var i :| 0 <= i < |init| && init[i].field == TrackNumber && ParseInt(init[i].value).None?
          && ApplyAll(t, init).error == BadTrackNumber(init[i].value)
          && forall j :: 0 <= j < i ==> Written(init[j]).Ok?;
        assert setters[i] == init[i];
      }
    }
  }

  /** An in-memory ID3 tag whose attributes the setters overwrite one at a time. */
  class Id3Tag {
    var title: Option<string>
    var artist: Option<string>
    var album: Option<string>
    var trackNum: TrackNum
    var year: Option<string>
    var albumArtist: Option<string>

    function Value(): Tag
      reads this
    {
      Tag(title, artist, album, trackNum, year, albumArtist)
    }

    /** The tag as loaded from a file. */
    constructor (t: Tag)
      ensures Value() == t
    {
      title, artist, album := t.title, t.artist, t.album;
      trackNum, year, albumArtist := t.trackNum, t.year, t.albumArtist;
    }

    /** Run one setter on this tag; on failure nothing is written. */
    method Set(a: TagAssignment) returns (err: Option<ApplyError>)
      modifies this
      ensures Apply(old(Value()), a) == if err.None? then Ok(Value()) else Err(err.value)
      ensures err.Some? ==> Value() == old(Value())
    {
      var written := Written(a);
      if written.Err? {
        return Some(written.error);
      }
      err := None;
      var v := written.value;
      match a.field
      case Title => title := v.text;
      case Artist => artist := v.text;
      case Album => album := v.text;
      case TrackNumber => trackNum := v.track;
      case Year => year := v.text;
      case AlbumArtist => albumArtist := v.text;
    }
  }
}
