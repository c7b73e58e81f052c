/** The two JavaScript string operations the page script relies on, following
    the ECMAScript rules for the arguments it passes (over sequences of
    characters, not UTF-16 code units):
    `String.prototype.substring` (arguments clamped to the string, swapped when
    out of order) and `String.prototype.split` with a one-character separator. */
module JsString {

  /** ToIntegerOrInfinity followed by the clamp to `[0, len]` that `substring` applies. */
  function Clamp(x: int, len: nat): (r: nat)
    ensures r <= len
    ensures 0 <= x <= len ==> r == x
    ensures x < 0 ==> r == 0
    ensures x > len ==> r == len
  {
    if x < 0 then 0 else if x > len then len else x
  }

  /** `s.substring(start, end)`: both indices are clamped, then the smaller one
      is taken as the start. It never fails, whatever the integers are. */
  function Substring(s: string, start: int, end: int): (r: string)
    ensures |r| == Dist(Clamp(start, |s|), Clamp(end, |s|))
  {
    var a, b := Clamp(start, |s|), Clamp(end, |s|);
    if a <= b then s[a..b] else s[b..a]
  }

  function Dist(a: int, b: int): (r: nat) { if a <= b then b - a else a - b }

  /** Indices inside the string and in order select exactly that slice. */
  lemma SubstringInOrder(s: string, start: int, end: int)
    requires 0 <= start <= end <= |s|
    ensures Substring(s, start, end) == s[start..end]
  {
  }

  /** The order of the two arguments does not matter. */
  lemma SubstringSymmetric(s: string, start: int, end: int)
    ensures Substring(s, start, end) == Substring(s, end, start)
  {
  }

  /** Clamping the arguments first changes nothing. */
  lemma SubstringClamped(s: string, start: int, end: int)
    ensures Substring(s, start, end) == Substring(s, Clamp(start, |s|), Clamp(end, |s|))
  {
  }

  /** `s.substring(0, n)` is the prefix of length `n`, clamped to `[0, |s|]`. */
  lemma SubstringPrefix(s: string, n: int)
    ensures Substring(s, 0, n) == s[..Clamp(n, |s|)]
    ensures |Substring(s, 0, n)| == Clamp(n, |s|)
  {
  }

  /** Number of occurrences of `c` in `s`. */
  function Occurrences(s: string, c: char): (r: nat)
  {
    if s == [] then 0 else (if s[0] == c then 1 else 0) + Occurrences(s[1..], c)
  }

  /** `s.split(sep)` for a one-character separator: the pieces between
      separators, including empty ones; the empty string yields `[""]`. */
  function Split(s: string, sep: char): (r: seq<string>)
    ensures |r| == Occurrences(s, sep) + 1
    ensures forall i :: 0 <= i < |r| ==> sep !in r[i]
  {
    if s == [] then [""]
    else
      var rest := Split(s[1..], sep);
      if s[0] == sep then [""] + rest
      else [[s[0]] + rest[0]] + rest[1..]
  }

  /** `parts.join(sep)`, the inverse of `Split`. */
  function Join(parts: seq<string>, sep: char): (r: string)
    requires |parts| >= 1
  {
    if |parts| == 1 then parts[0] else parts[0] + [sep] + Join(parts[1..], sep)
  }

  /** Splitting loses nothing: joining the pieces gives back the string. */
  lemma {:induction false} JoinOfSplit(s: string, sep: char)
    ensures Join(Split(s, sep), sep) == s
  {
    if s != [] {
      JoinOfSplit(s[1..], sep);
      var rest := Split(s[1..], sep);
      if s[0] != sep {
        if |rest| == 1 {
        } else {
          assert ([[s[0]] + rest[0]] + rest[1..])[1..] == rest[1..];
          assert Join(rest, sep) == rest[0] + [sep] + Join(rest[1..], sep);
        }
      } else {
        assert ([""] + rest)[1..] == rest;
      }
    }
  }

  /** Splitting a join of separator-free pieces gives back the pieces. */
  lemma {:induction false} SplitOfJoin(parts: seq<string>, sep: char)
    requires |parts| >= 1
    requires forall i :: 0 <= i < |parts| ==> sep !in parts[i]
    ensures Split(Join(parts, sep), sep) == parts
  {
    if |parts| == 1 {
      SplitOfPiece(parts[0], sep, []);
      assert parts[0] + [] == parts[0];
      assert parts[0] + Split([], sep)[0] == parts[0];
      assert parts == [parts[0]];
    } else {
      SplitOfJoin(parts[1..], sep);
      SplitOfPiece(parts[0], sep, [sep] + Join(parts[1..], sep));
      var t := Join(parts[1..], sep);
      assert ([sep] + t)[0] == sep && ([sep] + t)[1..] == t;
      var r := Split([sep] + t, sep);
      assert r == [""] + parts[1..];
      assert r[0] == "" && r[1..] == parts[1..];
      assert parts[0] + [sep] + t == parts[0] + ([sep] + t);
      assert parts[0] + r[0] == parts[0];
      assert [parts[0]] + parts[1..] == parts;
    }
  }

  /** A separator-free piece in front of a tail that is empty or starts with
      the separator extends the first piece of the tail's split. */
  lemma {:induction false} SplitOfPiece(p: string, sep: char, tail: string)
    requires sep !in p
    requires tail == [] || tail[0] == sep
    ensures Split(p + tail, sep) == [p + Split(tail, sep)[0]] + Split(tail, sep)[1..]
  {
    if p != [] {
      SplitOfPiece(p[1..], sep, tail);
      assert (p + tail)[1..] == p[1..] + tail;
      assert (p + tail)[0] == p[0];
      assert [p[0]] + (p[1..] + Split(tail, sep)[0]) == p + Split(tail, sep)[0];
    } else {
      assert p + tail == tail;
      if tail == [] {
      } else {
        var r := Split(tail, sep);
        assert r[0] == "";
        assert p + r[0] == r[0];
        assert [r[0]] + r[1..] == r;
      }
    }
  }
}
