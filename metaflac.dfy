/**
 * The parser for `metaflac --list --block-type=VORBIS_COMMENT` output: each
 * `comment[N]: KEY=VALUE` line whose key is in the tag map becomes one deferred
 * tag assignment, in the order of the lines.
 */
module Metaflac {
  import opened Wrappers
  import opened Text
  import opened Tags

  /** `\s` in a bytes pattern: space, tab, newline, carriage return, form feed, vertical tab. */
  predicate IsSpaceByte(b: Byte)
  {
    b == ' ' || 9 <= b as int <= 13
  }

  /** `\d` in a bytes pattern. */
  predicate IsDigitByte(b: Byte)
  {
    '0' <= b <= '9'
  }

  /** The key class `[A-Za-z 0-9_]`. */
  predicate IsKeyByte(b: Byte)
  {
    ('A' <= b <= 'Z') || ('a' <= b <= 'z') || b == ' ' || ('0' <= b <= '9') || b == '_'
  }

  /** `.` without DOTALL: any byte but a newline. */
  predicate IsNotNewline(b: Byte)
  {
    b != '\n'
  }

  /** The byte classes the pattern repeats. */
  datatype ByteClass = Space | Digit | KeyByte | NotNewline

  predicate In(c: ByteClass, b: Byte)
  {
    match c
    case Space => IsSpaceByte(b)
    case Digit => IsDigitByte(b)
    case KeyByte => IsKeyByte(b)
    case NotNewline => IsNotNewline(b)
  }

  /** Length of the greedy run of class `c` at the start of `s`. */
  function Run(s: seq<Byte>, c: ByteClass): (n: nat)
    ensures n <= |s|
    ensures forall i :: 0 <= i < n ==> In(c, s[i])
    ensures n < |s| ==> !In(c, s[n])
  {
    if s == [] || !In(c, s[0]) then 0 else 1 + Run(s[1..], c)
  }

  /** The run is determined by any split into a part of the class and a rest not starting with it. */
  lemma {:induction false} RunOfSplit(a: seq<Byte>, b: seq<Byte>, c: ByteClass)
    requires forall i :: 0 <= i < |a| ==> In(c, a[i])
    requires b == [] || !In(c, b[0])
    ensures Run(a + b, c) == |a|
  {
    if a != [] {
      assert (a + b)[1..] == a[1..] + b;
      RunOfSplit(a[1..], b, c);
    } else {
      assert a + b == b;
    }
  }

  const CommentOpen: seq<Byte> := "comment["
  const CommentClose: seq<Byte> := "]: "
  const Equals: seq<Byte> := "="

  /** The two groups of a matching line: the key and the raw value bytes. */
  datatype Comment = Comment(key: seq<Byte>, value: seq<Byte>)

  /** `s` is a non-empty run of bytes of class `c` (the pattern's `+`). */
  predicate Runs(s: seq<Byte>, c: ByteClass)
  {
    |s| >= 1 && forall i :: 0 <= i < |s| ==> In(c, s[i])
  }

  /** `s` without the literal prefix `lit`, when it starts with it. */
  function Literal(s: seq<Byte>, lit: seq<Byte>): (r: Option<seq<Byte>>)
    ensures r.Some? ==> s == lit + r.value
  {
    if |lit| <= |s| && s[..|lit|] == lit then Some(s[|lit|..]) else None
  }

  /** A literal prefix is always recognised, leaving exactly what follows it. */
  lemma LiteralOf(lit: seq<Byte>, t: seq<Byte>)
    ensures Literal(lit + t, lit) == Some(t)
  {
    assert (lit + t)[..|lit|] == lit;
    assert (lit + t)[|lit|..] == t;
  }

  /**
   * One step of the pattern: a greedy non-empty run of class `c` and then the
   * literal `lit`; the run and the bytes after the literal.
   */
  function Token(s: seq<Byte>, c: ByteClass, lit: seq<Byte>): (r: Option<(seq<Byte>, seq<Byte>)>)
    ensures r.Some? ==> Runs(r.value.0, c) && s == r.value.0 + (lit + r.value.1)
  {
    var n := Run(s, c);
    if n == 0 then None
    else match Literal(s[n..], lit)
      case None => None
      case Some(rest) =>
        assert s == s[..n] + s[n..];
        Some((s[..n], rest))
  }

  /** When the literal does not start with a byte of the class, any run followed by it is the token. */
  lemma {:induction false} TokenOf(run: seq<Byte>, c: ByteClass, lit: seq<Byte>, t: seq<Byte>)
    requires Runs(run, c) && lit != [] && !In(c, lit[0])
    ensures Token(run + (lit + t), c, lit) == Some((run, t))
  {
    var s := run + (lit + t);
    RunOfSplit(run, lit + t, c);
    assert s[..|run|] == run;
    assert s[|run|..] == lit + t;
    LiteralOf(lit, t);
  }

  /** `([A-Za-z 0-9_]+)=(.*)`: the key runs up to the first byte outside its class, which must be `=`. */
  function MatchKeyValue(r: seq<Byte>): Option<Comment>
  {
    match Token(r, KeyByte, Equals)
    case None => None
    case Some((key, rest)) => Some(Comment(key, rest[..Run(rest, NotNewline)]))
  }

  /** `\d+\]: ` followed by the key and value. */
  function MatchIndex(r: seq<Byte>): Option<Comment>
  {
    match Token(r, Digit, CommentClose)
    case None => None
    case Some((_, tail)) => MatchKeyValue(tail)
  }

  /**
   * `re.match(rb'\s+comment\[\d+\]: ([A-Za-z 0-9_]+)=(.*)', line)`, written out:
   * the match is anchored at the start only, and every repetition is followed by
   * a byte outside its class, so the greedy runs never need to back off.
   */
  function MatchLine(line: seq<Byte>): Option<Comment>
  {
    match Token(line, Space, CommentOpen)
    case None => None
    case Some((_, tail)) => MatchIndex(tail)
  }

  /** The text `key=value`. */
  function KeyValueText(key: seq<Byte>, value: seq<Byte>): seq<Byte>
  {
    key + (Equals + value)
  }

  /** The text `digits]: key=value`. */
  function IndexText(digits: seq<Byte>, key: seq<Byte>, value: seq<Byte>): seq<Byte>
  {
    digits + (CommentClose + KeyValueText(key, value))
  }

  /** `line` is whitespace, `comment[`, digits, `]: `, key, `=`, value, with the parts given. */
  predicate Shaped(line: seq<Byte>, ws: seq<Byte>, digits: seq<Byte>, key: seq<Byte>, value: seq<Byte>)
  {
    && Runs(ws, Space) && Runs(digits, Digit) && Runs(key, KeyByte)
    && line == ws + (CommentOpen + IndexText(digits, key, value))
  }

  lemma KeyValueSound(r: seq<Byte>)
    requires '\n' !in r
    requires MatchKeyValue(r).Some?
    ensures Runs(MatchKeyValue(r).value.key, KeyByte)
    ensures r == KeyValueText(MatchKeyValue(r).value.key, MatchKeyValue(r).value.value)
  {
    var (key, rest) := Token(r, KeyByte, Equals).value;
    assert '\n' !in rest by {
      assert r == key + (Equals + rest);
    }
    assert rest[..Run(rest, NotNewline)] == rest by {
      assert Run(rest, NotNewline) == |rest|;
    }
  }

  lemma KeyValueComplete(key: seq<Byte>, value: seq<Byte>)
    requires Runs(key, KeyByte) && '\n' !in value
    ensures MatchKeyValue(KeyValueText(key, value)) == Some(Comment(key, value))
  {
    TokenOf(key, KeyByte, Equals, value);
    RunOfSplit(value, [], NotNewline);
    assert value + [] == value;
    assert value[..|value|] == value;
  }

  lemma IndexSound(r: seq<Byte>) returns (digits: seq<Byte>)
    requires '\n' !in r
    requires MatchIndex(r).Some?
    ensures Runs(digits, Digit) && Runs(MatchIndex(r).value.key, KeyByte)
    ensures r == IndexText(digits, MatchIndex(r).value.key, MatchIndex(r).value.value)
  {
    var tok := Token(r, Digit, CommentClose).value;
    var tail := tok.1;
    digits := tok.0;
    assert '\n' !in tail by {
      assert r == digits + (CommentClose + tail);
    }
    KeyValueSound(tail);
  }

  lemma IndexComplete(digits: seq<Byte>, key: seq<Byte>, value: seq<Byte>)
    requires Runs(digits, Digit) && Runs(key, KeyByte) && '\n' !in value
    ensures MatchIndex(IndexText(digits, key, value)) == Some(Comment(key, value))
  {
    TokenOf(digits, Digit, CommentClose, KeyValueText(key, value));
    KeyValueComplete(key, value);
  }

  /** Every line the recogniser accepts has the comment shape, with the groups it returns. */
  lemma MatchLineSound(line: seq<Byte>) returns (ws: seq<Byte>, digits: seq<Byte>)
    requires '\n' !in line
    requires MatchLine(line).Some?
    ensures Shaped(line, ws, digits, MatchLine(line).value.key, MatchLine(line).value.value)
  {
    var tok := Token(line, Space, CommentOpen).value;
    var tail := tok.1;
    ws := tok.0;
    assert '\n' !in tail by {
      assert line == ws + (CommentOpen + tail);
    }
    digits := IndexSound(tail);
  }

  /** Every line of the comment shape is accepted, with exactly its key and value. */
  lemma MatchLineComplete(line: seq<Byte>, ws: seq<Byte>, digits: seq<Byte>, key: seq<Byte>, value: seq<Byte>)
    requires '\n' !in value
    requires Shaped(line, ws, digits, key, value)
    ensures MatchLine(line) == Some(Comment(key, value))
  {
    TokenOf(ws, Space, CommentOpen, IndexText(digits, key, value));
    IndexComplete(digits, key, value);
  }

  /** A line whose first byte is not whitespace, such as a continuation line, never matches. */
  lemma UnindentedLineNeverMatches(line: seq<Byte>)
    requires line == [] || !IsSpaceByte(line[0])
    ensures MatchLine(line) == None
  {
  }

  /** The UnicodeDecodeError raised when a kept value is not valid UTF-8. */
  datatype ParseError = DecodeError(value: seq<Byte>)

  /**
   * What one line contributes: nothing when it does not match or its key is not
   * in the tag map (the lookup happens before the value is decoded), otherwise
   * one assignment, or the decode error.
   */
  function ParseLine(line: seq<Byte>, decode: seq<Byte> -> Option<string>): Result<seq<TagAssignment>, ParseError>
  {
    match MatchLine(line)
    case None => Ok([])
    case Some(c) =>
      match FieldOf(c.key)
      case None => Ok([])
      case Some(f) =>
        match decode(c.value)
        case None => Err(DecodeError(c.value))
        case Some(v) => Ok([TagAssignment(f, v)])
  }

  /** The generator over the lines, collected with `list()`: the first error escapes. */
  function ParseLines(lines: seq<seq<Byte>>, decode: seq<Byte> -> Option<string>): Result<seq<TagAssignment>, ParseError>
    decreases |lines|
  {
    if lines == [] then Ok([])
    else match ParseLine(lines[0], decode)
      case Err(e) => Err(e)
      case Ok(first) =>
        match ParseLines(lines[1..], decode)
        case Err(e) => Err(e)
        case Ok(rest) => Ok(first + rest)
  }

  /** `list(metaflac_stdout_to_setters(output))`: the output is split at every newline byte. */
  function MetaflacStdoutToSetters(output: seq<Byte>, decode: seq<Byte> -> Option<string>): Result<seq<TagAssignment>, ParseError>
  {
    ParseLines(Split(output, '\n'), decode)
  }

  /** Results of two consecutive runs of lines, joined: the earlier error wins. */
  function Then(a: Result<seq<TagAssignment>, ParseError>, b: Result<seq<TagAssignment>, ParseError>): Result<seq<TagAssignment>, ParseError>
  {
    match a
    case Err(e) => Err(e)
    case Ok(x) =>
      match b
      case Err(e) => Err(e)
      case Ok(y) => Ok(x + y)
  }

  /**
   * Parsing is line by line and keeps order: the result for a concatenation of
   * listings is the result for the first followed by the result for the second.
   */
  lemma {:induction false} ParseLinesAppend(a: seq<seq<Byte>>, b: seq<seq<Byte>>, decode: seq<Byte> -> Option<string>)
    ensures ParseLines(a + b, decode) == Then(ParseLines(a, decode), ParseLines(b, decode))
    decreases |a|
  {
    if a == [] {
      assert a + b == b;
      match ParseLines(b, decode)
      case Err(e) =>
      case Ok(y) => assert [] + y == y;
    } else {
      assert (a + b)[0] == a[0];
      assert (a + b)[1..] == a[1..] + b;
      ParseLinesAppend(a[1..], b, decode);
      match ParseLine(a[0], decode)
      case Err(e) =>
      case Ok(x) =>
        match ParseLines(a[1..], decode)
        case Err(e) =>
        case Ok(y) =>
          match ParseLines(b, decode)
          case Err(e) =>
          case Ok(z) => assert x + (y + z) == (x + y) + z;
    }
  }

  /** A comment line with a mapped key yields exactly one assignment of its decoded, untrimmed value. */
  lemma KeptLine(line: seq<Byte>, ws: seq<Byte>, digits: seq<Byte>, key: seq<Byte>, value: seq<Byte>,
                 decode: seq<Byte> -> Option<string>)
    requires '\n' !in value
    requires Shaped(line, ws, digits, key, value)
    requires FieldOf(key).Some?
    ensures decode(value).Some? ==> ParseLine(line, decode) == Ok([TagAssignment(FieldOf(key).value, decode(value).value)])
    ensures decode(value).None? ==> ParseLine(line, decode) == Err(DecodeError(value))
  {
    MatchLineComplete(line, ws, digits, key, value);
  }

  /** A comment line whose key is not in the tag map yields nothing, and its value is never decoded. */
  lemma DroppedKey(line: seq<Byte>, ws: seq<Byte>, digits: seq<Byte>, key: seq<Byte>, value: seq<Byte>,
                   decode: seq<Byte> -> Option<string>)
    requires '\n' !in value
    requires Shaped(line, ws, digits, key, value)
    requires FieldOf(key).None?
    ensures ParseLine(line, decode) == Ok([])
  {
    MatchLineComplete(line, ws, digits, key, value);
  }

  /** A line without the comment shape yields nothing. */
  lemma UnshapedLine(line: seq<Byte>, decode: seq<Byte> -> Option<string>)
    requires '\n' !in line
    requires forall ws, digits, key, value :: !Shaped(line, ws, digits, key, value)
    ensures ParseLine(line, decode) == Ok([])
  {
    if MatchLine(line).Some? {
      var ws, digits := MatchLineSound(line);
      assert false;
    }
  }

  /**
   * Nothing is invented: every assignment comes from a line of the comment shape
   * whose key maps to its field and whose value decodes to its value.
   */
  lemma {:induction false} AssignmentsComeFromLines(lines: seq<seq<Byte>>, decode: seq<Byte> -> Option<string>, a: TagAssignment)
    requires forall i :: 0 <= i < |lines| ==> '\n' !in lines[i]
    requires ParseLines(lines, decode).Ok? && a in ParseLines(lines, decode).value
    ensures exists i, ws, digits, key, value ::
      (0 <= i < |lines| && Shaped(lines[i], ws, digits, key, value)
       && FieldOf(key) == Some(a.field) && decode(value) == Some(a.value))
    decreases |lines|
  {
    var first := ParseLine(lines[0], decode).value;
    assert ParseLines(lines, decode).value == first + ParseLines(lines[1..], decode).value;
    if a in first {
      var c := MatchLine(lines[0]).value;
      assert a == TagAssignment(FieldOf(c.key).value, decode(c.value).value);
      var ws, digits := MatchLineSound(lines[0]);
      assert Shaped(lines[0], ws, digits, c.key, c.value);
    } else {
      AssignmentsComeFromLines(lines[1..], decode, a);
      var i, ws, digits, key, value :| 0 <= i < |lines| - 1 && Shaped(lines[1..][i], ws, digits, key, value)
        && FieldOf(key) == Some(a.field) && decode(value) == Some(a.value);
      assert lines[1..][i] == lines[i + 1];
    }
  }

  /** Nothing is lost: every kept comment line's assignment is in the result; `ParseLinesPerLine` states how many times. */
  lemma {:induction false} LinesYieldAssignments(lines: seq<seq<Byte>>, decode: seq<Byte> -> Option<string>,
                                                 i: nat, ws: seq<Byte>, digits: seq<Byte>, key: seq<Byte>, value: seq<Byte>)
    requires i < |lines| && '\n' !in value && Shaped(lines[i], ws, digits, key, value)
    requires FieldOf(key).Some? && ParseLines(lines, decode).Ok?
    ensures decode(value).Some?
    ensures TagAssignment(FieldOf(key).value, decode(value).value) in ParseLines(lines, decode).value
  {
    assert lines == lines[..i] + [lines[i]] + lines[i + 1..];
    ParseLinesAppend(lines[..i] + [lines[i]], lines[i + 1..], decode);
    ParseLinesAppend(lines[..i], [lines[i]], decode);
    KeptLine(lines[i], ws, digits, key, value, decode);
    assert ParseLines([lines[i]], decode) == ParseLine(lines[i], decode) by {
      var single: seq<seq<Byte>> := [lines[i]];
      assert single[1..] == [];
      match ParseLine(lines[i], decode)
      case Err(e) =>
      case Ok(x) => assert x + [] == x;
    }
  }

  /** Parsing the whole output is parsing its lines, however they were laid out. */
  lemma ParseJoinedLines(lines: seq<seq<Byte>>, decode: seq<Byte> -> Option<string>)
    requires |lines| >= 1 && forall k :: 0 <= k < |lines| ==> '\n' !in lines[k]
    ensures MetaflacStdoutToSetters(Join(lines, '\n'), decode) == ParseLines(lines, decode)
  {
    SplitJoin(lines, '\n');
  }

  /** The parse of a listing that starts with `line`. */
  lemma ParseLinesCons(line: seq<Byte>, rest: seq<seq<Byte>>, decode: seq<Byte> -> Option<string>)
    ensures ParseLines([line] + rest, decode) == Then(ParseLine(line, decode), ParseLines(rest, decode))
  {
    var lines := [line] + rest;
    assert lines[0] == line && lines[1..] == rest;
  }

  /**
   * On success the result is the concatenation of what each line contributes on
   * its own, in the order of the lines.
   */
  lemma {:induction false} ParseLinesPerLine(lines: seq<seq<Byte>>, decode: seq<Byte> -> Option<string>,
                                             contributions: seq<seq<TagAssignment>>)
    requires |lines| == |contributions|
    requires forall i :: 0 <= i < |lines| ==> ParseLine(lines[i], decode) == Ok(contributions[i])
    ensures ParseLines(lines, decode) == Ok(Flatten(contributions))
    decreases |lines|
  {
    if lines != [] {
      ParseLinesPerLine(lines[1..], decode, contributions[1..]);
    }
  }
}
