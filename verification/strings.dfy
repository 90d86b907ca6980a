/** Splitting a string on a single separator character, as .NET's
    String.Split(char) does, and the inverse Join. */
module Strings {

  /** The pieces of `s` between occurrences of `sep`, in order. An empty
      string yields one empty piece, and consecutive or trailing separators
      yield empty pieces, exactly as String.Split(char) does. */
  function Split(s: string, sep: char): (parts: seq<string>)
    ensures |parts| >= 1
    ensures forall i :: 0 <= i < |parts| ==> sep !in parts[i]
    decreases |s|
  {
    if |s| == 0 then [""]
    else
      var rest := Split(s[1..], sep);
      if s[0] == sep then [""] + rest
      else [[s[0]] + rest[0]] + rest[1..]
  }

  /** The pieces glued back together with `sep` between neighbours. */
  function Join(parts: seq<string>, sep: char): string
  {
    if |parts| == 0 then ""
    else if |parts| == 1 then parts[0]
    else parts[0] + [sep] + Join(parts[1..], sep)
  }

  /** Prepending a character to the first piece prepends it to the join. */
  lemma JoinConsHead(c: char, parts: seq<string>, sep: char)
    requires |parts| >= 1
    ensures Join([[c] + parts[0]] + parts[1..], sep) == [c] + Join(parts, sep)
  {
    var ps := [[c] + parts[0]] + parts[1..];
    assert ps[1..] == parts[1..];
  }

  /** Joining the pieces of a split gives the original string back. */
  lemma {:induction false} JoinSplit(s: string, sep: char)
    ensures Join(Split(s, sep), sep) == s
    decreases |s|
  {
    if |s| > 0 {
      var rest := Split(s[1..], sep);
      JoinSplit(s[1..], sep);
      if s[0] == sep {
        var ps := [""] + rest;
        assert ps[1..] == rest;
        assert Join(ps, sep) == "" + [sep] + Join(rest, sep);
        assert s == [s[0]] + s[1..];
      } else {
        JoinConsHead(s[0], rest, sep);
        assert s == [s[0]] + s[1..];
      }
    }
  }

  /** A string free of the separator is split into itself alone. */
  lemma {:induction false} SplitNoSeparator(h: string, sep: char)
    requires sep !in h
    ensures Split(h, sep) == [h]
    decreases |h|
  {
    if |h| > 0 {
      assert h[0] in h;
      assert forall c :: c in h[1..] ==> c in h;
      SplitNoSeparator(h[1..], sep);
      assert [h[0]] + h[1..] == h;
    }
  }

  /** A separator-free head followed by the separator becomes its own
      first piece, and the rest is split independently. */
  lemma {:induction false} SplitAfterHead(h: string, t: string, sep: char)
    requires sep !in h
    ensures Split(h + [sep] + t, sep) == [h] + Split(t, sep)
    decreases |h|
  {
    var s := h + [sep] + t;
    if |h| == 0 {
      assert s[0] == sep && s[1..] == t;
    } else {
      assert h[0] in h;
      assert forall c :: c in h[1..] ==> c in h;
      assert s[0] == h[0] && s[1..] == h[1..] + [sep] + t;
      SplitAfterHead(h[1..], t, sep);
      assert [h[0]] + h[1..] == h;
    }
  }

  /** Splitting pieces that are free of the separator, after joining
      them, gives the same pieces back. */
  lemma {:induction false} SplitJoin(parts: seq<string>, sep: char)
    requires |parts| >= 1
    requires forall i :: 0 <= i < |parts| ==> sep !in parts[i]
    ensures Split(Join(parts, sep), sep) == parts
    decreases |parts|
  {
    if |parts| == 1 {
      SplitNoSeparator(parts[0], sep);
    } else {
      SplitJoin(parts[1..], sep);
      SplitAfterHead(parts[0], Join(parts[1..], sep), sep);
      assert [parts[0]] + parts[1..] == parts;
    }
  }

  /** The first piece is a prefix of the string, and when it is not the
      whole string the character right after it is the separator. */
  lemma {:induction false} FirstPieceIsPrefix(s: string, sep: char)
    ensures Split(s, sep)[0] <= s
    ensures |Split(s, sep)[0]| < |s| ==> s[|Split(s, sep)[0]|] == sep
    decreases |s|
  {
    if |s| > 0 && s[0] != sep {
      FirstPieceIsPrefix(s[1..], sep);
    }
  }

  /** For a separator-free `h`, the first piece of `s` is `h` exactly when
      `s` is `h` itself or starts with `h` and then the separator. */
  lemma FirstPieceIs(s: string, sep: char, h: string)
    requires sep !in h
    ensures Split(s, sep)[0] == h <==> (s == h || h + [sep] <= s)
  {
    if s == h {
      SplitNoSeparator(h, sep);
    } else if h + [sep] <= s {
      var t := s[|h| + 1..];
      assert s == h + [sep] + t;
      SplitAfterHead(h, t, sep);
    } else {
      FirstPieceIsPrefix(s, sep);
    }
  }
}
