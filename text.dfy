/** Splitting and joining strings on a one-character separator, with the
    semantics of Go's strings.Split and strings.Join: splitting always yields
    at least one segment, and an empty string splits into [""]. */
module Text {

  /** Index of the first occurrence of `c` in `s`. */
  function FirstIndex(s: string, c: char): (i: nat)
    requires c in s
    ensures i < |s| && s[i] == c && c !in s[..i]
  {
    if s[0] == c then 0 else FirstIndex(s[1..], c) + 1
  }

  /** All segments of `s` between occurrences of `sep`, in order. */
  function Split(s: string, sep: char): (r: seq<string>)
    ensures |r| >= 1
    ensures |r| == 1 <==> sep !in s
    ensures forall k :: 0 <= k < |r| ==> sep !in r[k]
    decreases |s|
  {
    if sep !in s then [s]
    else
      var i := FirstIndex(s, sep);
      [s[..i]] + Split(s[i + 1..], sep)
  }

  /** The segments glued back together with `sep` between neighbours. */
  function Join(parts: seq<string>, sep: char): string
  {
    if |parts| == 0 then ""
    else if |parts| == 1 then parts[0]
    else parts[0] + [sep] + Join(parts[1..], sep)
  }

  /** The first separator in `x + [sep] + y` is the one after `x`. */
  lemma FirstIndexAfter(x: string, sep: char, y: string)
    requires sep !in x
    ensures sep in x + [sep] + y
    ensures FirstIndex(x + [sep] + y, sep) == |x|
  {
    var s := x + [sep] + y;
    assert s[|x|] == sep;
    var i := FirstIndex(s, sep);
    assert forall j :: |x| < j <= |s| ==> s[..j][|x|] == sep;
    assert forall j :: 0 <= j < |x| ==> s[j] == x[j];
  }

  /** A string is its part before index `i`, the character there and the
      rest. */
  lemma Around(s: string, i: nat)
    requires i < |s|
    ensures s == s[..i] + [s[i]] + s[i + 1..]
  {
  }

  /** Joining the pieces of a split gives back the original string. */
  lemma {:induction false} JoinSplit(s: string, sep: char)
    ensures Join(Split(s, sep), sep) == s
    decreases |s|
  {
    if sep in s {
      var i := FirstIndex(s, sep);
      var head, tail := s[..i], s[i + 1..];
      var rest := Split(tail, sep);
      assert Split(s, sep) == [head] + rest;
      JoinSplit(tail, sep);
      JoinCons(head, rest, sep);
      Around(s, i);
    }
  }

  /** Join of a piece followed by a non-empty list of pieces. */
  lemma JoinCons(head: string, rest: seq<string>, sep: char)
    requires |rest| >= 1
    ensures Join([head] + rest, sep) == head + [sep] + Join(rest, sep)
  {
    assert ([head] + rest)[1..] == rest;
  }

  /** Splitting a join gives back the pieces, as long as no piece holds the
      separator and there is at least one piece. */
  lemma {:induction false} SplitJoin(parts: seq<string>, sep: char)
    requires |parts| >= 1
    requires forall k :: 0 <= k < |parts| ==> sep !in parts[k]
    ensures Split(Join(parts, sep), sep) == parts
  {
    if |parts| > 1 {
      var head, tail := parts[0], parts[1..];
      var rest := Join(tail, sep);
      var s := head + [sep] + rest;
      assert Join(parts, sep) == s;
      FirstIndexAfter(head, sep, rest);
      Pieces(head, sep, rest);
      assert Split(s, sep) == [head] + Split(rest, sep);
      SplitJoin(tail, sep);
      assert [head] + tail == parts;
    }
  }

  /** The two sides of a separator placed between `x` and `y`. */
  lemma Pieces(x: string, sep: char, y: string)
    ensures (x + [sep] + y)[..|x|] == x && (x + [sep] + y)[|x| + 1..] == y
  {
  }

  /** Appending one more piece adds a separator and the piece at the end. */
  lemma {:induction false} JoinSnoc(parts: seq<string>, x: string, sep: char)
    requires |parts| >= 1
    ensures Join(parts + [x], sep) == Join(parts, sep) + [sep] + x
  {
    if |parts| == 1 {
      assert (parts + [x])[1..] == [x];
    } else {
      assert (parts + [x])[1..] == parts[1..] + [x];
      JoinSnoc(parts[1..], x, sep);
    }
  }
}
