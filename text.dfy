/** Byte and character helpers shared by the parser and the path functions. */
module Text {

  /** One byte of a `bytes` object, viewed as the character with the same code. */
  type Byte = c: char | c as int < 256 witness '\0'

  /** Python's ASCII `str.lower()` on one character; other characters are kept. */
  function LowerChar(c: char): (r: char)
    ensures 'A' <= c <= 'Z' ==> r as int == c as int + 32
    ensures !('A' <= c <= 'Z') ==> r == c
  {
    if 'A' <= c <= 'Z' then (c as int + 32) as char else c
  }

  function Lower(s: string): (r: string)
    ensures |r| == |s|
    ensures forall i :: 0 <= i < |s| ==> r[i] == LowerChar(s[i])
  {
    seq(|s|, i requires 0 <= i < |s| => LowerChar(s[i]))
  }

  predicate EndsWith<T(==)>(s: seq<T>, suffix: seq<T>)
  {
    |suffix| <= |s| && s[|s| - |suffix|..] == suffix
  }

  /** `s.lower().endswith(suffix.lower())`: the case-insensitive suffix test. */
  predicate EndsWithFold(s: string, suffix: string)
  {
    EndsWith(Lower(s), Lower(suffix))
  }

  /** The concatenation of all the sequences in `xs`, in order. */
  function Flatten<T>(xs: seq<seq<T>>): seq<T>
  {
    if xs == [] then [] else xs[0] + Flatten(xs[1..])
  }

  /** Position of the first `sep` in `s`, or `|s|` when there is none. */
  function Find<T(==)>(s: seq<T>, sep: T): (n: nat)
    ensures n <= |s|
    ensures forall i :: 0 <= i < n ==> s[i] != sep
    ensures n < |s| ==> s[n] == sep
  {
    if s == [] || s[0] == sep then 0 else 1 + Find(s[1..], sep)
  }

  /** Position of the last `c` in `s`, or -1 when there is none (`str.rfind`). */
  function RFind<T(==)>(s: seq<T>, c: T): (r: int)
    ensures -1 <= r < |s|
    ensures r >= 0 ==> s[r] == c
    ensures forall i :: r < i < |s| ==> s[i] != c
  {
    if s == [] then -1
    else if s[|s| - 1] == c then |s| - 1
    else RFind(s[..|s| - 1], c)
  }

  /** `bytes.split(sep)`: the pieces between separators, empty pieces included. */
  function Split(s: seq<Byte>, sep: Byte): (pieces: seq<seq<Byte>>)
    ensures |pieces| >= 1
    ensures forall k :: 0 <= k < |pieces| ==> sep !in pieces[k]
    decreases |s|
  {
    var n := Find(s, sep);
    if n == |s| then [s] else [s[..n]] + Split(s[n + 1..], sep)
  }

  /** `sep.join(pieces)`. */
  function Join(pieces: seq<seq<Byte>>, sep: Byte): seq<Byte>
  {
    if |pieces| <= 1 then (if pieces == [] then [] else pieces[0])
    else pieces[0] + [sep] + Join(pieces[1..], sep)
  }

  /** Splitting loses nothing: joining the pieces back gives the original bytes. */
  lemma {:induction false} JoinSplit(s: seq<Byte>, sep: Byte)
    ensures Join(Split(s, sep), sep) == s
    decreases |s|
  {
    var n := Find(s, sep);
    if n < |s| {
      var rest := Split(s[n + 1..], sep);
      var pieces := [s[..n]] + rest;
      assert Split(s, sep) == pieces;
      assert pieces[0] == s[..n] && pieces[1..] == rest && |pieces| >= 2;
      assert Join(pieces, sep) == s[..n] + [sep] + Join(rest, sep);
      JoinSplit(s[n + 1..], sep);
      assert s == s[..n] + [sep] + s[n + 1..];
    }
  }

  /** Splitting a join of separator-free pieces gives the pieces back. */
  lemma {:induction false} SplitJoin(pieces: seq<seq<Byte>>, sep: Byte)
    requires |pieces| >= 1
    requires forall k :: 0 <= k < |pieces| ==> sep !in pieces[k]
    ensures Split(Join(pieces, sep), sep) == pieces
    decreases |pieces|
  {
    if |pieces| == 1 {
      assert Find(pieces[0], sep) == |pieces[0]|;
    } else {
      var head := pieces[0];
      var tail := Join(pieces[1..], sep);
      var s := head + [sep] + tail;
      assert s[|head|] == sep;
      assert forall i :: 0 <= i < |head| ==> s[i] == head[i];
      assert Find(s, sep) == |head|;
      assert s[..|head|] == head;
      assert s[|head| + 1..] == tail;
      SplitJoin(pieces[1..], sep);
      assert [head] + pieces[1..] == pieces;
    }
  }
}
