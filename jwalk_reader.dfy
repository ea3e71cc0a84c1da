/**
 * The reader of jwalk-style link files. Each line, once trailing white space is removed,
 * is either blank (skipped), `resid|chain|` (a mono-link, three fields after splitting on
 * `|`) or `resid1|chain1|resid2|chain2|` (a cross-link, five fields, the last one empty and
 * ignored). Any other field count makes the whole read fail.
 *
 * The file itself is not opened here: a read is given the file's lines, each as Python's
 * line iteration yields it (trailing newline included).
 */
module JwalkReader {

  import opened Wrappers
  import opened Text
  import ObsXlink
  import ObsMono

  type Xlink = ObsXlink.Xlink
  type Mono = ObsMono.Mono

  /** The mono-link built from the fields of a three-field line. */
  function ParsedMono(resid: string, chain: string): Mono
  {
    ObsMono.Fresh.(resid := resid, chain := chain, objName := chain + "_" + resid)
  }

  /** The cross-link built from the first four fields of a five-field line. */
  function ParsedXlink(resid1: string, chain1: string, resid2: string, chain2: string): Xlink
  {
    ObsXlink.Fresh.(resid1 := resid1, chain1 := chain1, resid2 := resid2, chain2 := chain2,
                    objName := chain1 + "_" + resid1 + "-" + chain2 + "_" + resid2)
  }

  /** What one line of the file is. */
  datatype LineKind = Blank | MonoRecord(mono: Mono) | XlinkRecord(xlink: Xlink) | Malformed

  function Classify(line: string): LineKind
  {
    var stripped := RStrip(line);
    if stripped == [] then Blank
    else
      var data := Split(stripped, '|');
      if |data| == 3 then MonoRecord(ParsedMono(data[0], data[1]))
      else if |data| == 5 then XlinkRecord(ParsedXlink(data[0], data[1], data[2], data[3]))
      else Malformed
  }

  /** The records gathered from a run of lines, and whether the run had no malformed line.
      When it had one, the records are those of the lines before it. */
  datatype Scanned = Scanned(xlinks: seq<Xlink>, monos: seq<Mono>, complete: bool)

  /** One pass of the loop, given what the line is. */
  function Step(s: Scanned, k: LineKind): Scanned
  {
    if !s.complete then s
    else
      match k
      case Blank => s
      case MonoRecord(m) => s.(monos := s.monos + [m])
      case XlinkRecord(x) => s.(xlinks := s.xlinks + [x])
      case Malformed => s.(complete := false)
  }

  /** The loop over lines of kinds `ks`, in order. */
  function Run(ks: seq<LineKind>): Scanned
    decreases |ks|
  {
    if ks == [] then Scanned([], [], true) else Step(Run(ks[..|ks| - 1]), ks[|ks| - 1])
  }

  function Kinds(lines: seq<string>): seq<LineKind>
  {
    seq(|lines|, i requires 0 <= i < |lines| => Classify(lines[i]))
  }

  function Scan(lines: seq<string>): Scanned
  {
    Run(Kinds(lines))
  }

  /** What a read of a fresh reader returns: both lists, or `None` for a malformed file. */
  function Parse(lines: seq<string>): Option<(seq<Xlink>, seq<Mono>)>
  {
    var s := Scan(lines);
    if s.complete then Some((s.xlinks, s.monos)) else None
  }

  /** Scanning `b` after `a`: nothing more once `a` has failed, otherwise `b`'s records
      follow `a`'s. */
  function Chain(s: Scanned, t: Scanned): Scanned
  {
    if !s.complete then s else Scanned(s.xlinks + t.xlinks, s.monos + t.monos, t.complete)
  }

  /** The reader object: its file name and the two lists it appends to. */
  class Reader {
    var filename: string
    var xlinks: seq<Xlink>
    var monos: seq<Mono>

    constructor (filename: string)
      ensures this.filename == filename && xlinks == [] && monos == []
    {
      this.filename := filename;
      xlinks := [];
      monos := [];
    }

    /** Appends the records of `lines` to the two lists, stopping at the first malformed
        line, and returns both lists unless there was one. */
    method Read(lines: seq<string>) returns (r: Option<(seq<Xlink>, seq<Mono>)>)
      modifies this`xlinks, this`monos
      ensures xlinks == old(xlinks) + Scan(lines).xlinks
      ensures monos == old(monos) + Scan(lines).monos
      ensures r == if Scan(lines).complete then Some((xlinks, monos)) else None
    {
      var i := 0;
      while i < |lines|
        invariant 0 <= i <= |lines|
        invariant Scan(lines[..i]).complete
        invariant xlinks == old(xlinks) + Scan(lines[..i]).xlinks
        invariant monos == old(monos) + Scan(lines[..i]).monos
      {
        ScanLast(lines, i);
        var line := RStrip(lines[i]);
        if line != [] {
          var data := Split(line, '|');
          if |data| == 3 {
            var mono := ObsMono.Fresh.(resid := data[0], chain := data[1]);
            mono := mono.(objName := mono.chain + "_" + mono.resid);
            monos := monos + [mono];
          } else if |data| == 5 {
            var xl := ObsXlink.Fresh.(resid1 := data[0], chain1 := data[1], resid2 := data[2], chain2 := data[3]);
            xl := xl.(objName := xl.chain1 + "_" + xl.resid1 + "-" + xl.chain2 + "_" + xl.resid2);
            xlinks := xlinks + [xl];
          } else {
            ScanStopsAtMalformed(lines, i);
            return None;
          }
        }
        i := i + 1;
      }
      assert lines[..i] == lines;
      r := Some((xlinks, monos));
    }
  }

  // ---------------------------------------------------------------------------
  // Properties of the loop, over the kinds of the lines

  /** Running one more line is one more step. */
  lemma RunLast(ks: seq<LineKind>, k: LineKind)
    ensures Run(ks + [k]) == Step(Run(ks), k)
  {
    assert (ks + [k])[..|ks|] == ks;
  }

  /** Running a concatenation is running the parts in turn. */
  lemma {:induction false} RunAppend(ks1: seq<LineKind>, ks2: seq<LineKind>)
    ensures Run(ks1 + ks2) == Chain(Run(ks1), Run(ks2))
    decreases |ks2|
  {
    if ks2 == [] {
      assert ks1 + ks2 == ks1;
    } else {
      var init, k := ks2[..|ks2| - 1], ks2[|ks2| - 1];
      assert ks1 + ks2 == (ks1 + init) + [k];
      assert ks2 == init + [k];
      RunAppend(ks1, init);
      RunLast(ks1 + init, k);
      RunLast(init, k);
    }
  }

  lemma {:induction false} RunFailsIffMalformed(ks: seq<LineKind>)
    ensures !Run(ks).complete <==> exists i :: 0 <= i < |ks| && ks[i].Malformed?
    decreases |ks|
  {
    if ks != [] {
      var init := ks[..|ks| - 1];
      RunFailsIffMalformed(init);
      assert forall i :: 0 <= i < |init| ==> init[i] == ks[i];
    }
  }

  /** Number of kinds other than `Blank`. */
  function NonBlankKinds(ks: seq<LineKind>): nat
    decreases |ks|
  {
    if ks == [] then 0 else NonBlankKinds(ks[..|ks| - 1]) + (if ks[|ks| - 1].Blank? then 0 else 1)
  }

  lemma {:induction false} RunCounts(ks: seq<LineKind>)
    ensures Run(ks).complete ==> |Run(ks).xlinks| + |Run(ks).monos| == NonBlankKinds(ks)
    decreases |ks|
  {
    if ks != [] {
      RunCounts(ks[..|ks| - 1]);
    }
  }

  /** A record kind holds a record as the reader builds it. */
  predicate KindFresh(k: LineKind)
  {
    (k.MonoRecord? ==> IsParsedMono(k.mono)) && (k.XlinkRecord? ==> IsParsedXlink(k.xlink))
  }

  lemma {:induction false} RunFresh(ks: seq<LineKind>)
    requires forall i :: 0 <= i < |ks| ==> KindFresh(ks[i])
    ensures forall i :: 0 <= i < |Run(ks).xlinks| ==> IsParsedXlink(Run(ks).xlinks[i])
    ensures forall i :: 0 <= i < |Run(ks).monos| ==> IsParsedMono(Run(ks).monos[i])
    decreases |ks|
  {
    if ks != [] {
      var init := ks[..|ks| - 1];
      assert forall i :: 0 <= i < |init| ==> init[i] == ks[i];
      RunFresh(init);
      assert KindFresh(ks[|ks| - 1]);
    }
  }

  // ---------------------------------------------------------------------------
  // Properties of the reader

  lemma KindsAppend(a: seq<string>, b: seq<string>)
    ensures Kinds(a + b) == Kinds(a) + Kinds(b)
  {
    assert forall i :: 0 <= i < |a| ==> (a + b)[i] == a[i];
    assert forall i :: |a| <= i < |a + b| ==> (a + b)[i] == b[i - |a|];
  }

  lemma KindsOne(line: string)
    ensures Kinds([line]) == [Classify(line)]
  {
  }

  /** Reading a concatenation is reading the parts in turn: this is where the order of
      the records and the fail-fast behaviour come from. */
  lemma ScanAppend(a: seq<string>, b: seq<string>)
    ensures Scan(a + b) == Chain(Scan(a), Scan(b))
  {
    KindsAppend(a, b);
    RunAppend(Kinds(a), Kinds(b));
  }

  /** Reading up to and including line `i` is one more pass after the lines before it. */
  lemma ScanLast(lines: seq<string>, i: nat)
    requires i < |lines|
    ensures Scan(lines[..i + 1]) == Step(Scan(lines[..i]), Classify(lines[i]))
  {
    assert lines[..i + 1] == lines[..i] + [lines[i]];
    KindsAppend(lines[..i], [lines[i]]);
    KindsOne(lines[i]);
    RunLast(Kinds(lines[..i]), Classify(lines[i]));
  }

  /** Reading one more line is one more pass. */
  lemma ScanSnoc(lines: seq<string>, line: string)
    ensures Scan(lines + [line]) == Step(Scan(lines), Classify(line))
  {
    KindsAppend(lines, [line]);
    KindsOne(line);
    RunLast(Kinds(lines), Classify(line));
  }

  /** Once a malformed line has been seen, the rest of the file changes nothing. */
  lemma ScanStopsAtMalformed(lines: seq<string>, i: nat)
    requires i < |lines|
    requires Scan(lines[..i]).complete
    requires Classify(lines[i]).Malformed?
    ensures Scan(lines) == Scan(lines[..i]).(complete := false)
  {
    ScanLast(lines, i);
    assert lines == lines[..i + 1] + lines[i + 1..];
    ScanAppend(lines[..i + 1], lines[i + 1..]);
  }

  /** A read fails exactly when some line is malformed. */
  lemma ParseFailsIffMalformed(lines: seq<string>)
    ensures Parse(lines).None? <==> exists i :: 0 <= i < |lines| && Classify(lines[i]).Malformed?
  {
    var ks := Kinds(lines);
    RunFailsIffMalformed(ks);
    if Parse(lines).None? {
      var i :| 0 <= i < |ks| && ks[i].Malformed?;
      assert Classify(lines[i]).Malformed?;
    }
    if exists i :: 0 <= i < |lines| && Classify(lines[i]).Malformed? {
      var i :| 0 <= i < |lines| && Classify(lines[i]).Malformed?;
      assert ks[i].Malformed?;
    }
  }

  /** A line is malformed exactly when it is not blank and its number of `|` separators
      is neither 2 nor 4. */
  lemma MalformedIff(line: string)
    ensures Classify(line).Malformed? <==>
            RStrip(line) != [] && Count(RStrip(line), '|') != 2 && Count(RStrip(line), '|') != 4
  {
  }

  /** Number of lines that are not blank after `rstrip()`. */
  function NonBlank(lines: seq<string>): nat
    decreases |lines|
  {
    if lines == [] then 0
    else NonBlank(lines[..|lines| - 1]) + (if RStrip(lines[|lines| - 1]) == [] then 0 else 1)
  }

  lemma {:induction false} NonBlankKindsOfLines(lines: seq<string>)
    ensures NonBlankKinds(Kinds(lines)) == NonBlank(lines)
    decreases |lines|
  {
    if lines != [] {
      var n := |lines| - 1;
      NonBlankKindsOfLines(lines[..n]);
      assert Kinds(lines)[..n] == Kinds(lines[..n]);
      assert Kinds(lines)[n] == Classify(lines[n]);
    }
  }

  /** On success every non-blank line gives exactly one record. */
  lemma ParseCountsNonBlankLines(lines: seq<string>)
    ensures Parse(lines).Some? ==> |Parse(lines).value.0| + |Parse(lines).value.1| == NonBlank(lines)
  {
    RunCounts(Kinds(lines));
    NonBlankKindsOfLines(lines);
  }

  /** A blank or white-space-only line, wherever it stands, changes nothing. */
  lemma BlankLineIgnored(a: seq<string>, blank: string, c: seq<string>)
    requires AllSpace(blank)
    ensures Parse(a + [blank] + c) == Parse(a + c)
  {
    RStripEmptyIff(blank);
    KindsOne(blank);
    RunLast(Kinds(a), Blank);
    KindsAppend(a, [blank]);
    ScanAppend(a + [blank], c);
    ScanAppend(a, c);
    assert Scan(a + [blank]) == Scan(a);
  }

  /** The last field of a record line: any text without `|`, possibly empty. It is ignored,
      and it must not end in white space, which `rstrip()` would remove along with the
      padding. */
  predicate LastField(f: string)
  {
    '|' !in f && (f == [] || !IsSpace(f[|f| - 1]))
  }

  /** `Terminated(fs) + last` with non-empty `fs` does not end in white space when `last` is a
      last field. */
  lemma TerminatedEnd(fs: seq<string>, last: string)
    requires fs != [] && LastField(last)
    ensures Terminated(fs, '|') + last != []
    ensures !IsSpace((Terminated(fs, '|') + last)[|Terminated(fs, '|') + last| - 1])
  {
    if last == [] {
      TerminatedEndsInSep(fs);
      assert Terminated(fs, '|') + last == Terminated(fs, '|');
    } else {
      assert (Terminated(fs, '|') + last)[|Terminated(fs, '|') + last| - 1] == last[|last| - 1];
    }
  }

  lemma {:induction false} TerminatedEndsInSep(fs: seq<string>)
    requires fs != []
    ensures Terminated(fs, '|') != [] && Terminated(fs, '|')[|Terminated(fs, '|')| - 1] == '|'
    decreases |fs|
  {
    if fs[1..] != [] {
      TerminatedEndsInSep(fs[1..]);
    }
  }

  /** A record line: the fields, each followed by `|`, then the last field and padding. Its
      stripped form is not blank and splits into the fields and the last field. */
  lemma RecordLine(fs: seq<string>, last: string, pad: string)
    requires fs != [] && forall i :: 0 <= i < |fs| ==> '|' !in fs[i]
    requires LastField(last) && AllSpace(pad)
    ensures RStrip(Terminated(fs, '|') + last + pad) == Terminated(fs, '|') + last != []
    ensures Split(RStrip(Terminated(fs, '|') + last + pad), '|') == fs + [last]
  {
    TerminatedEnd(fs, last);
    RStripPadded(Terminated(fs, '|') + last, pad);
    SplitTerminated(fs, last, '|');
  }

  /** A line `resid|chain|last`, followed by any white space, is a mono-link with these fields
      kept verbatim (leading characters included) and the object name `chain_resid`; the
      third field is ignored. */
  lemma MonoLine(resid: string, chain: string, last: string, pad: string)
    requires '|' !in resid && '|' !in chain
    requires LastField(last) && AllSpace(pad)
    ensures Classify(resid + "|" + chain + "|" + last + pad) == MonoRecord(ParsedMono(resid, chain))
    ensures ParsedMono(resid, chain).objName == chain + "_" + resid
  {
    var fs := [resid, chain];
    var core := resid + "|" + chain + "|" + last;
    assert core == Terminated(fs, '|') + last by {
      assert Terminated(fs[1..], '|') == chain + "|" by { assert fs[1..][1..] == []; }
    }
    assert core + pad == Terminated(fs, '|') + last + pad;
    RecordLine(fs, last, pad);
  }

  /** A line `resid1|chain1|resid2|chain2|last`, followed by any white space, is a cross-link
      with these fields and the object name `chain1_resid1-chain2_resid2`; the fifth field is
      ignored. */
  lemma XlinkLine(resid1: string, chain1: string, resid2: string, chain2: string, last: string, pad: string)
    requires '|' !in resid1 && '|' !in chain1 && '|' !in resid2 && '|' !in chain2
    requires LastField(last) && AllSpace(pad)
    ensures Classify(resid1 + "|" + chain1 + "|" + resid2 + "|" + chain2 + "|" + last + pad)
            == XlinkRecord(ParsedXlink(resid1, chain1, resid2, chain2))
    ensures ParsedXlink(resid1, chain1, resid2, chain2).objName
            == chain1 + "_" + resid1 + "-" + chain2 + "_" + resid2
  {
    var fs := [resid1, chain1, resid2, chain2];
    var core := resid1 + "|" + chain1 + "|" + resid2 + "|" + chain2 + "|" + last;
    assert core == Terminated(fs, '|') + last by {
      assert Terminated(fs[3..], '|') == chain2 + "|" by { assert fs[3..][1..] == []; }
      assert Terminated(fs[2..], '|') == resid2 + "|" + chain2 + "|" by { assert fs[2..][1..] == fs[3..]; }
      assert Terminated(fs[1..], '|') == chain1 + "|" + resid2 + "|" + chain2 + "|" by { assert fs[1..][1..] == fs[2..]; }
    }
    assert core + pad == Terminated(fs, '|') + last + pad;
    RecordLine(fs, last, pad);
  }

  /** Every record the reader builds is a fresh record with only its identifiers and its
      object name set: distance 0.0 and both presence flags true. */
  predicate IsParsedXlink(x: Xlink)
  {
    x == ParsedXlink(x.resid1, x.chain1, x.resid2, x.chain2)
  }

  predicate IsParsedMono(m: Mono)
  {
    m == ParsedMono(m.resid, m.chain)
  }

  lemma ParsedRecordsAreFresh(lines: seq<string>)
    ensures forall i :: 0 <= i < |Scan(lines).xlinks| ==> IsParsedXlink(Scan(lines).xlinks[i])
    ensures forall i :: 0 <= i < |Scan(lines).monos| ==> IsParsedMono(Scan(lines).monos[i])
    ensures forall i :: 0 <= i < |Scan(lines).xlinks| ==>
              Scan(lines).xlinks[i].distance == 0.0 &&
              Scan(lines).xlinks[i].res1InObj && Scan(lines).xlinks[i].res2InObj
  {
    var ks := Kinds(lines);
    forall i | 0 <= i < |ks|
      ensures KindFresh(ks[i])
    {
      assert ks[i] == Classify(lines[i]);
    }
    RunFresh(ks);
  }

  /** The reader does not deduplicate: reading a file twice over gives every record twice. */
  lemma ParseKeepsDuplicates(lines: seq<string>)
    requires Parse(lines).Some?
    ensures Parse(lines + lines) ==
            Some((Parse(lines).value.0 + Parse(lines).value.0, Parse(lines).value.1 + Parse(lines).value.1))
  {
    ScanAppend(lines, lines);
  }

  // ---------------------------------------------------------------------------
  // Writing records back in the file format: the reader's inverse

  function MonoText(m: Mono): string
  {
    m.resid + "|" + m.chain + "|"
  }

  function XlinkText(x: Xlink): string
  {
    x.resid1 + "|" + x.chain1 + "|" + x.resid2 + "|" + x.chain2 + "|"
  }

  function XlinkLines(xs: seq<Xlink>): seq<string>
    decreases |xs|
  {
    if xs == [] then [] else XlinkLines(xs[..|xs| - 1]) + [XlinkText(xs[|xs| - 1])]
  }

  function MonoLines(ms: seq<Mono>): seq<string>
    decreases |ms|
  {
    if ms == [] then [] else MonoLines(ms[..|ms| - 1]) + [MonoText(ms[|ms| - 1])]
  }

  /** Records the reader could have built: as parsed, with no `|` in any identifier. */
  predicate WritableXlink(x: Xlink)
  {
    IsParsedXlink(x) && '|' !in x.resid1 && '|' !in x.chain1 && '|' !in x.resid2 && '|' !in x.chain2
  }

  predicate WritableMono(m: Mono)
  {
    IsParsedMono(m) && '|' !in m.resid && '|' !in m.chain
  }

  lemma XlinkTextKind(x: Xlink)
    requires WritableXlink(x)
    ensures Classify(XlinkText(x)) == XlinkRecord(x)
  {
    XlinkLine(x.resid1, x.chain1, x.resid2, x.chain2, "", "");
    assert XlinkText(x) + "" + "" == XlinkText(x);
  }

  lemma MonoTextKind(m: Mono)
    requires WritableMono(m)
    ensures Classify(MonoText(m)) == MonoRecord(m)
  {
    MonoLine(m.resid, m.chain, "", "");
    assert MonoText(m) + "" + "" == MonoText(m);
  }

  lemma {:induction false} ScanXlinkLines(xs: seq<Xlink>)
    requires forall i :: 0 <= i < |xs| ==> WritableXlink(xs[i])
    ensures Scan(XlinkLines(xs)) == Scanned(xs, [], true)
    decreases |xs|
  {
    if xs != [] {
      var init, x := xs[..|xs| - 1], xs[|xs| - 1];
      ScanXlinkLines(init);
      XlinkTextKind(x);
      ScanSnoc(XlinkLines(init), XlinkText(x));
      assert init + [x] == xs;
    }
  }

  lemma {:induction false} ScanMonoLines(ms: seq<Mono>)
    requires forall i :: 0 <= i < |ms| ==> WritableMono(ms[i])
    ensures Scan(MonoLines(ms)) == Scanned([], ms, true)
    decreases |ms|
  {
    if ms != [] {
      var init, m := ms[..|ms| - 1], ms[|ms| - 1];
      ScanMonoLines(init);
      MonoTextKind(m);
      ScanSnoc(MonoLines(init), MonoText(m));
      assert init + [m] == ms;
    }
  }

  /** Reading a file written from cross-links and mono-links gives them back. */
  lemma ParseOfWritten(xs: seq<Xlink>, ms: seq<Mono>)
    requires forall i :: 0 <= i < |xs| ==> WritableXlink(xs[i])
    requires forall i :: 0 <= i < |ms| ==> WritableMono(ms[i])
    ensures Parse(XlinkLines(xs) + MonoLines(ms)) == Some((xs, ms))
  {
    ScanXlinkLines(xs);
    ScanMonoLines(ms);
    ScanAppend(XlinkLines(xs), MonoLines(ms));
    assert [] + ms == ms && xs + [] == xs;
  }

  /** A file of one cross-link line and one mono-link line, each possibly followed by
      white space, gives one record of each kind; for `10|A|20|B|` and `55|C|` these are the
      cross-link A_10-B_20 and the mono-link C_55. */
  lemma TwoLineFile(resid1: string, chain1: string, resid2: string, chain2: string,
                    resid: string, chain: string, pad1: string, pad2: string)
    requires '|' !in resid1 && '|' !in chain1 && '|' !in resid2 && '|' !in chain2
    requires '|' !in resid && '|' !in chain
    requires AllSpace(pad1) && AllSpace(pad2)
    ensures Parse([resid1 + "|" + chain1 + "|" + resid2 + "|" + chain2 + "|" + pad1,
                   resid + "|" + chain + "|" + pad2])
            == Some(([ParsedXlink(resid1, chain1, resid2, chain2)], [ParsedMono(resid, chain)]))
  {
    var l1 := resid1 + "|" + chain1 + "|" + resid2 + "|" + chain2 + "|" + pad1;
    var l2 := resid + "|" + chain + "|" + pad2;
    XlinkLine(resid1, chain1, resid2, chain2, "", pad1);
    assert resid1 + "|" + chain1 + "|" + resid2 + "|" + chain2 + "|" + "" + pad1 == l1;
    MonoLine(resid, chain, "", pad2);
    assert resid + "|" + chain + "|" + "" + pad2 == l2;
    ParseTwo(l1, l2, ParsedXlink(resid1, chain1, resid2, chain2), ParsedMono(resid, chain));
  }

  lemma ParseTwo(l1: string, l2: string, x: Xlink, m: Mono)
    requires Classify(l1) == XlinkRecord(x) && Classify(l2) == MonoRecord(m)
    ensures Parse([l1, l2]) == Some(([x], [m]))
  {
    assert Kinds([l1, l2]) == [XlinkRecord(x)] + [MonoRecord(m)];
    RunLast([], XlinkRecord(x));
    assert [] + [XlinkRecord(x)] == [XlinkRecord(x)];
    assert Run([XlinkRecord(x)]) == Scanned([x], [], true);
    RunLast([XlinkRecord(x)], MonoRecord(m));
    assert [] + [m] == [m];
  }

  /** A non-blank line whose number of fields is neither 3 nor 5 makes the whole read fail
      wherever it stands: one without any `|` such as the comma-delimited `10,A,20,B,`, or
      one with an extra field such as `10|A|20|B|extra|`. The line is the `|`-terminated
      fields `f` followed by the last field and padding. */
  lemma ExtraFieldFails(before: seq<string>, f: seq<string>, last: string, pad: string, after: seq<string>)
    requires (f != [] || last != []) && |f| != 2 && |f| != 4
    requires forall i :: 0 <= i < |f| ==> '|' !in f[i]
    requires LastField(last) && AllSpace(pad)
    ensures Parse(before + [Terminated(f, '|') + last + pad] + after).None?
  {
    WrongFieldCount(f, last, pad);
    MalformedLineFails(before, Terminated(f, '|') + last + pad, after);
  }

  lemma WrongFieldCount(f: seq<string>, last: string, pad: string)
    requires (f != [] || last != []) && |f| != 2 && |f| != 4
    requires forall i :: 0 <= i < |f| ==> '|' !in f[i]
    requires LastField(last) && AllSpace(pad)
    ensures Classify(Terminated(f, '|') + last + pad).Malformed?
  {
    if f == [] {
      assert Terminated(f, '|') + last + pad == last + pad;
      NoSeparatorLine(last, pad);
    } else {
      SeparatedLine(f, last, pad);
    }
  }

  lemma SeparatedLine(f: seq<string>, last: string, pad: string)
    requires f != [] && |f| != 2 && |f| != 4
    requires forall i :: 0 <= i < |f| ==> '|' !in f[i]
    requires LastField(last) && AllSpace(pad)
    ensures Classify(Terminated(f, '|') + last + pad).Malformed?
  {
    var line := Terminated(f, '|') + last + pad;
    RecordLine(f, last, pad);
    assert |Split(RStrip(line), '|')| == |f| + 1;
    MalformedByFieldCount(line);
  }

  /** A non-blank line without any `|` has one field and is malformed. */
  lemma NoSeparatorLine(text: string, pad: string)
    requires text != [] && LastField(text) && AllSpace(pad)
    ensures Classify(text + pad).Malformed?
  {
    RStripPadded(text, pad);
    SplitWithoutSep(text, '|');
    MalformedByFieldCount(text + pad);
  }

  /** A non-blank line with neither 3 nor 5 fields is malformed. */
  lemma MalformedByFieldCount(line: string)
    requires RStrip(line) != []
    requires |Split(RStrip(line), '|')| != 3 && |Split(RStrip(line), '|')| != 5
    ensures Classify(line).Malformed?
  {
  }

  /** One malformed line anywhere makes the read fail. */
  lemma MalformedLineFails(before: seq<string>, line: string, after: seq<string>)
    requires Classify(line).Malformed?
    ensures Parse(before + [line] + after).None?
  {
    var lines := before + [line] + after;
    assert lines[|before|] == line;
    ParseFailsIffMalformed(lines);
  }
}
