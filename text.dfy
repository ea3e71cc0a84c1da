/**
 * The two string operations of Python's library that the plugin relies on:
 * `rstrip()` with no argument and `split(sep)` with a one-character separator.
 * Each is characterised by its ensures clauses, which determine the result uniquely.
 */
module Text {

  /** The characters `bytes.rstrip()` removes: space, tab, newline, carriage return,
      vertical tab and form feed. */
  predicate IsSpace(c: char)
  {
    c == ' ' || c == '\t' || c == '\n' || c == '\r' || c == '\U{B}' || c == '\U{C}'
  }

  predicate AllSpace(s: string)
  {
    forall i :: 0 <= i < |s| ==> IsSpace(s[i])
  }

  /** `s.rstrip()`: the longest prefix of `s` that does not end in white space. */
  function RStrip(s: string): (r: string)
    ensures r <= s
    ensures r == [] || !IsSpace(r[|r| - 1])
    ensures AllSpace(s[|r|..])
    decreases |s|
  {
    if s == [] then []
    else if IsSpace(s[|s| - 1]) then
      var r := RStrip(s[..|s| - 1]);
      assert s[|r|..] == s[..|s| - 1][|r|..] + [s[|s| - 1]];
      r
    else s
  }

  /** Appending white space to a string does not change what `rstrip()` gives. */
  lemma {:induction false} RStripAppendSpace(s: string, w: string)
    requires AllSpace(w)
    ensures RStrip(s + w) == RStrip(s)
    decreases |w|
  {
    if w != [] {
      var w' := w[..|w| - 1];
      assert (s + w)[..|s + w| - 1] == s + w';
      assert IsSpace((s + w)[|s + w| - 1]);
      RStripAppendSpace(s, w');
    } else {
      assert s + w == s;
    }
  }

  /** A string is blank after `rstrip()` exactly when it consists of white space only. */
  lemma RStripEmptyIff(s: string)
    ensures RStrip(s) == [] <==> AllSpace(s)
  {
  }

  /** Number of occurrences of `c` in `s`. */
  function Count(s: string, c: char): nat
    decreases |s|
  {
    if s == [] then 0 else (if s[0] == c then 1 else 0) + Count(s[1..], c)
  }

  /** The inverse of `split`: `sep.join(ps)`. */
  function Join(ps: seq<string>, sep: char): string
    decreases |ps|
  {
    if |ps| == 0 then "" else if |ps| == 1 then ps[0] else ps[0] + [sep] + Join(ps[1..], sep)
  }

  /** `s.split(sep)`: the pieces between the occurrences of `sep`, one more piece than there
      are separators, none of them containing `sep`, and joined back they give `s`. */
  function Split(s: string, sep: char): (r: seq<string>)
    ensures |r| == Count(s, sep) + 1
    ensures forall i :: 0 <= i < |r| ==> sep !in r[i]
    ensures Join(r, sep) == s
    decreases |s|
  {
    if s == [] then [""]
    else
      var rest := Split(s[1..], sep);
      if s[0] == sep then
        assert s == [sep] + s[1..];
        [""] + rest
      else
        var r := [[s[0]] + rest[0]] + rest[1..];
        assert r[1..] == rest[1..];
        assert |rest| > 1 ==> Join(rest, sep) == rest[0] + [sep] + Join(rest[1..], sep);
        assert s == [s[0]] + s[1..];
        r
  }

  /** Splitting at a first separator that follows `a`. */
  lemma {:induction false} SplitAfterPiece(a: string, sep: char, rest: string)
    requires sep !in a
    ensures Split(a + [sep] + rest, sep) == [a] + Split(rest, sep)
    decreases |a|
  {
    if a != [] {
      assert (a + [sep] + rest)[1..] == a[1..] + [sep] + rest;
      SplitAfterPiece(a[1..], sep, rest);
      assert [a[0]] + a[1..] == a;
    }
  }

  /** A string without the separator splits into itself. */
  lemma {:induction false} SplitWithoutSep(a: string, sep: char)
    requires sep !in a
    ensures Split(a, sep) == [a]
    decreases |a|
  {
    if a != [] {
      SplitWithoutSep(a[1..], sep);
      assert [a[0]] + a[1..] == a;
    }
  }

  /** `split` undoes `join` when no piece contains the separator. */
  lemma {:induction false} SplitOfJoin(ps: seq<string>, sep: char)
    requires |ps| > 0
    requires forall i :: 0 <= i < |ps| ==> sep !in ps[i]
    ensures Split(Join(ps, sep), sep) == ps
    decreases |ps|
  {
    if |ps| == 1 {
      SplitWithoutSep(ps[0], sep);
    } else {
      SplitOfJoin(ps[1..], sep);
      SplitAfterPiece(ps[0], sep, Join(ps[1..], sep));
      assert [ps[0]] + ps[1..] == ps;
    }
  }

  /** The pieces, each followed by `sep`: the shape of a record line of a jwalk file. */
  function Terminated(fs: seq<string>, sep: char): string
    decreases |fs|
  {
    if fs == [] then "" else fs[0] + [sep] + Terminated(fs[1..], sep)
  }

  /** Splitting pieces that are each followed by the separator, and then a last piece,
      gives the pieces and the last piece. */
  lemma {:induction false} SplitTerminated(fs: seq<string>, last: string, sep: char)
    requires forall i :: 0 <= i < |fs| ==> sep !in fs[i]
    requires sep !in last
    ensures Split(Terminated(fs, sep) + last, sep) == fs + [last]
    decreases |fs|
  {
    if fs == [] {
      assert Terminated(fs, sep) + last == last;
      SplitWithoutSep(last, sep);
    } else {
      SplitTerminated(fs[1..], last, sep);
      assert Terminated(fs, sep) + last == fs[0] + [sep] + (Terminated(fs[1..], sep) + last);
      SplitAfterPiece(fs[0], sep, Terminated(fs[1..], sep) + last);
      assert [fs[0]] + (fs[1..] + [last]) == fs + [last];
    }
  }

  /** White space after a string that does not end in white space is what `rstrip()`
      removes, and all it removes. */
  lemma RStripPadded(core: string, pad: string)
    requires core != [] && !IsSpace(core[|core| - 1])
    requires AllSpace(pad)
    ensures RStrip(core + pad) == core
  {
    RStripAppendSpace(core, pad);
  }
}
