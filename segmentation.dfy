/**
 * `parse_unimarc_text`: the lines of a UNIMARC text export are cut into
 * record blocks at blank lines; inside a block every line of the form
 * `ddd <whitespace> content` adds `content` under tag `ddd`, and every other
 * line is ignored.
 */
module Segmentation {
  import opened Wrappers
  import opened Text
  import opened Sequences
  import opened TaggedRecord

  /**
   * One way for `^(\d{3})\s+(.+)$` to match `s`: the three digits are
   * `s[..3]`, `\s+` covers `s[3..k]` and `(.+)` covers `s[k..]`.
   */
  predicate MatchesAt(s: string, k: int) {
    4 <= k < |s| && IsDigit(s[0]) && IsDigit(s[1]) && IsDigit(s[2]) &&
    (forall i :: 3 <= i < k ==> IsSpace(s[i])) &&
    (forall i :: k <= i < |s| ==> s[i] != '\n')
  }

  /**
   * Matching the tag-line pattern `^(\d{3})\s+(.+)$` against a stripped line `s`: the tag and
   * the content groups, or `None`. The greedy `\s+` takes the whole
   * whitespace run, so the content starts with a non-space character.
   */
  function MatchTagLine(s: string): (m: Option<(string, string)>)
    requires s == [] || (!IsSpace(s[0]) && !IsSpace(s[|s| - 1]))
    ensures m.Some? <==> exists k :: MatchesAt(s, k)
    ensures m.Some? ==>
      var content := m.value.1;
      m.value.0 == s[..3] && content != [] && !IsSpace(content[0]) &&
      MatchesAt(s, |s| - |content|) && content == s[|s| - |content|..]
  {
    if |s| >= 4 && IsDigit(s[0]) && IsDigit(s[1]) && IsDigit(s[2]) && IsSpace(s[3]) then
      var content := TrimStart(s[3..]);
      GreedyMatch(s);
      TrimStartSuffix(s[3..]);
      if content != [] && '\n' !in content then Some((s[..3], content)) else None
    else
      assert forall k :: MatchesAt(s, k) ==> |s| >= 4 && IsSpace(s[3]);
      None
  }

  /** The greedy split is the only one that can succeed. */
  lemma GreedyMatch(s: string)
    requires |s| >= 4 && IsDigit(s[0]) && IsDigit(s[1]) && IsDigit(s[2]) && IsSpace(s[3])
    requires !IsSpace(s[|s| - 1])
    ensures var c := TrimStart(s[3..]);
      c != [] && |c| < |s| - 3 &&
      (MatchesAt(s, |s| - |c|) <==> '\n' !in c) &&
      ((exists k :: MatchesAt(s, k)) <==> '\n' !in c)
  {
    var t := s[3..];
    var c := TrimStart(t);
    var k0 := |s| - |c|;
    TrimStartDropsSpaces(t);
    TrimStartSuffix(t);
    assert forall i :: 0 <= i < |t| ==> t[i] == s[3 + i];
    assert c != [] by {
      assert t[|t| - 1] == s[|s| - 1];
    }
    assert k0 >= 4 by {
      assert t[0] == s[3];
    }
    assert forall i :: k0 <= i < |s| ==> s[i] == c[i - k0];
    assert forall i :: 3 <= i < k0 ==> IsSpace(s[i]) by {
      forall i | 3 <= i < k0 ensures IsSpace(s[i]) { assert IsSpace(t[i - 3]); }
    }
    forall k | MatchesAt(s, k) ensures '\n' !in c {
      assert s[k0] == c[0] && !IsSpace(s[k0]);
      assert k <= k0;
      forall j | 0 <= j < |c| ensures c[j] != '\n' { assert c[j] == s[k0 + j]; }
    }
    if '\n' !in c {
      forall i | k0 <= i < |s| ensures s[i] != '\n' { assert s[i] == c[i - k0]; }
      assert MatchesAt(s, k0);
    }
  }


  /** What one line of the text is, once stripped. */
  datatype LineKind =
    | Blank                                  // empty after stripping: closes the block
    | Tagged(tag: string, content: string)   // matches the tag-line pattern
    | Unmatched                              // anything else: ignored

  /** The classification `parse_unimarc_text` applies to each line. */
  function Classify(line: string): (k: LineKind)
    ensures k == Blank <==> Strip(line) == []
    ensures k.Tagged? ==>
      |k.tag| == 3 && IsDigit(k.tag[0]) && IsDigit(k.tag[1]) && IsDigit(k.tag[2]) &&
      k.content != [] && !IsSpace(k.content[0]) && !IsSpace(k.content[|k.content| - 1])
  {
    var s := Strip(line);
    if s == [] then Blank
    else
      match MatchTagLine(s)
      case Some(m) => Tagged(m.0, m.1)
      case None => Unmatched
  }

  /**
   * Which lines are tagged: a non-blank line is `Tagged` exactly when its
   * stripped form matches the tag-line pattern, and then the tag and the
   * content are the pattern's two groups.
   */
  lemma ClassifyMeaning(line: string)
    ensures var s := Strip(line);
      s != [] ==> (Classify(line).Tagged? <==> exists j :: MatchesAt(s, j))
    ensures var s, k := Strip(line), Classify(line);
      k.Tagged? ==>
        MatchesAt(s, |s| - |k.content|) && k.tag == s[..3] && k.content == s[|s| - |k.content|..]
  {
  }

  function ClassifyAll(lines: seq<string>): (ks: seq<LineKind>)
    ensures |ks| == |lines| && forall i :: 0 <= i < |lines| ==> ks[i] == Classify(lines[i])
  {
    seq(|lines|, i requires 0 <= i < |lines| => Classify(lines[i]))
  }

  /** The effect of one line on the record being built. */
  function AddLine(r: Record, k: LineKind): Record {
    match k
    case Tagged(tag, content) => Append(r, tag, content)
    case _ => r
  }

  /** The record `r` extended by the lines of `ks`, first to last. */
  function AddLines(r: Record, ks: seq<LineKind>): Record {
    if ks == [] then r else AddLine(AddLines(r, ks[..|ks| - 1]), ks[|ks| - 1])
  }

  /** Building from a well-formed record keeps it well-formed. */
  lemma {:induction false} AddLinesWellFormed(r: Record, ks: seq<LineKind>)
    requires WellFormed(r)
    ensures WellFormed(AddLines(r, ks))
  {
    if ks != [] {
      var k := ks[|ks| - 1];
      AddLinesWellFormed(r, ks[..|ks| - 1]);
      if k.Tagged? {
        AppendWellFormed(AddLines(r, ks[..|ks| - 1]), k.tag, k.content);
      }
    }
  }

  /** The record one block of lines yields. */
  function BuildRecord(block: seq<LineKind>): Record {
    AddLines([], block)
  }

  /** The contents that tag lines with tag `t` carry, in line order. */
  function TagContents(ks: seq<LineKind>, t: string): seq<string> {
    if ks == [] then []
    else
      var before := TagContents(ks[..|ks| - 1], t);
      var k := ks[|ks| - 1];
      if k.Tagged? && k.tag == t then before + [k.content] else before
  }

  /** The tags of the tag lines, in line order, repeats included. */
  function LineTags(ks: seq<LineKind>): seq<string> {
    if ks == [] then []
    else
      var before := LineTags(ks[..|ks| - 1]);
      var k := ks[|ks| - 1];
      if k.Tagged? then before + [k.tag] else before
  }

  /** `s` with every repeat after the first occurrence removed. */
  function FirstAppearances(s: seq<string>): (d: seq<string>)
    ensures forall x :: x in d <==> x in s
    ensures forall i, j :: 0 <= i < j < |d| ==> d[i] != d[j]
  {
    if s == [] then []
    else
      var d := FirstAppearances(s[..|s| - 1]);
      assert s == s[..|s| - 1] + [s[|s| - 1]];
      if s[|s| - 1] in d then d else d + [s[|s| - 1]]
  }

  /**
   * Repeated tags accumulate: the list stored under `t` is every content that
   * a `t` line carried, in line order, after what `r` already held.
   */
  lemma {:induction false} AddLinesContents(r: Record, ks: seq<LineKind>, t: string)
    ensures Contents(AddLines(r, ks), t) == Contents(r, t) + TagContents(ks, t)
  {
    if ks != [] {
      AddLinesContents(r, ks[..|ks| - 1], t);
    }
  }

  /** In a block's record, tag `t` holds exactly the contents of the block's `t` lines. */
  lemma BuildRecordContents(block: seq<LineKind>, t: string)
    ensures Contents(BuildRecord(block), t) == TagContents(block, t)
  {
    AddLinesContents([], block, t);
  }

  /** A block's record lists its tags in the order of their first line. */
  lemma {:induction false} BuildRecordTags(block: seq<LineKind>)
    ensures Tags(BuildRecord(block)) == FirstAppearances(LineTags(block))
  {
    if block != [] {
      var init := block[..|block| - 1];
      var k := block[|block| - 1];
      BuildRecordTags(init);
      if k.Tagged? {
        AppendTags(BuildRecord(init), k.tag, k.content);
        var ts := LineTags(block);
        assert ts == LineTags(init) + [k.tag];
        assert ts[..|ts| - 1] == LineTags(init);
      }
    }
  }

  /** Lines are consumed left to right: a block may be built in two pieces. */
  lemma {:induction false} AddLinesConcat(r: Record, x: seq<LineKind>, y: seq<LineKind>)
    ensures AddLines(r, x + y) == AddLines(AddLines(r, x), y)
    decreases |y|
  {
    if y == [] {
      assert x + y == x;
    } else {
      var y' := y[..|y| - 1];
      AddLinesConcat(r, x, y');
      assert (x + y)[..|x + y| - 1] == x + y';
    }
  }

  /** The record list gains a record only when the block produced a field. */
  function Emit(r: Record): seq<Record> {
    if r == [] then [] else [r]
  }

  /** The records of a sequence of blocks, blocks without fields skipped. */
  function Records(bs: seq<seq<LineKind>>): seq<Record> {
    if bs == [] then [] else Emit(BuildRecord(bs[0])) + Records(bs[1..])
  }

  /**
   * The records of a text. Its blocks are the runs of lines between blank
   * lines, `Split(ks, Blank)` (`n` blank lines give `n + 1` blocks, some
   * possibly empty); each block yields one record, blocks without a field
   * are skipped, and the last block needs no closing blank line.
   */
  function Segment(ks: seq<LineKind>): seq<Record> {
    Records(Split(ks, Blank))
  }

  /** The open block `h` in front of the blocks `bs` of the rest of the text. */
  function WithOpenBlock(h: seq<LineKind>, bs: seq<seq<LineKind>>): seq<seq<LineKind>>
    requires |bs| >= 1
  {
    [h + bs[0]] + bs[1..]
  }

  /** An empty open block adds nothing. */
  lemma WithEmptyOpenBlock(bs: seq<seq<LineKind>>)
    requires |bs| >= 1
    ensures WithOpenBlock([], bs) == bs
  {
    assert [] + bs[0] == bs[0];
    assert [bs[0]] + bs[1..] == bs;
  }

  /** Lines put in front of the open block in two steps or in one. */
  lemma WithOpenBlockTwice(h: seq<LineKind>, x: seq<LineKind>, bs: seq<seq<LineKind>>)
    requires |bs| >= 1
    ensures WithOpenBlock(h, WithOpenBlock(x, bs)) == WithOpenBlock(h + x, bs)
  {
    assert h + (x + bs[0]) == (h + x) + bs[0];
  }

  /** The records of an open block before further blocks. */
  lemma RecordsWithOpenBlock(h: seq<LineKind>, bs: seq<seq<LineKind>>)
    requires |bs| >= 1
    ensures Records(WithOpenBlock(h, bs)) == Emit(BuildRecord(h + bs[0])) + Records(bs[1..])
  {
    assert WithOpenBlock(h, bs)[1..] == bs[1..];
  }

  /** The records of consecutive block sequences are consecutive. */
  lemma {:induction false} RecordsConcat(x: seq<seq<LineKind>>, y: seq<seq<LineKind>>)
    ensures Records(x + y) == Records(x) + Records(y)
  {
    if x != [] {
      RecordsConcat(x[1..], y);
      assert (x + y)[1..] == x[1..] + y;
    } else {
      assert x + y == y;
    }
  }

  /** A blank line separates: the text around it segments independently. */
  lemma BlankLineSeparates(a: seq<LineKind>, b: seq<LineKind>)
    ensures Segment(a + [Blank] + b) == Segment(a) + Segment(b)
  {
    SplitAround(a, Blank, b);
    RecordsConcat(Split(a, Blank), Split(b, Blank));
  }

  /** Every emitted record holds at least one field, and is a well-formed dict. */
  lemma {:induction false} RecordsNonEmpty(bs: seq<seq<LineKind>>)
    ensures forall i :: 0 <= i < |Records(bs)| ==> Records(bs)[i] != [] && WellFormed(Records(bs)[i])
  {
    if bs != [] {
      AddLinesWellFormed([], bs[0]);
      RecordsNonEmpty(bs[1..]);
    }
  }

  /** An unmatched line inside a block does not change the block's record. */
  lemma BuildRecordSkipsUnmatched(x: seq<LineKind>, y: seq<LineKind>)
    ensures BuildRecord(x + [Unmatched] + y) == BuildRecord(x + y)
  {
    AddLinesConcat([], x + [Unmatched], y);
    AddLinesConcat([], x, y);
    assert (x + [Unmatched])[..|x|] == x;
  }

  /** An unmatched line ignored behind any open block. */
  lemma {:induction false} UnmatchedIgnoredAfter(h: seq<LineKind>, a: seq<LineKind>, b: seq<LineKind>)
    ensures Records(WithOpenBlock(h, Split(a + [Unmatched] + b, Blank))) ==
            Records(WithOpenBlock(h, Split(a + b, Blank)))
    decreases |a|
  {
    var s := a + [Unmatched] + b;
    var t := a + b;
    if a == [] {
      var p := Split(b, Blank);
      assert s[0] == Unmatched && s[1..] == b && t == b;
      assert Split(s, Blank) == [[Unmatched] + p[0]] + p[1..];
      assert h + ([Unmatched] + p[0]) == h + [Unmatched] + p[0];
      BuildRecordSkipsUnmatched(h, p[0]);
      assert WithOpenBlock(h, Split(s, Blank))[1..] == p[1..];
      assert WithOpenBlock(h, Split(t, Blank))[1..] == p[1..];
    } else {
      var a' := a[1..];
      assert s[0] == a[0] && s[1..] == a' + [Unmatched] + b;
      assert t[0] == a[0] && t[1..] == a' + b;
      var q := Split(a' + [Unmatched] + b, Blank);
      var q' := Split(a' + b, Blank);
      if a[0] == Blank {
        UnmatchedIgnoredAfter([], a', b);
        WithEmptyOpenBlock(q);
        WithEmptyOpenBlock(q');
        assert Split(s, Blank) == [[]] + q && Split(t, Blank) == [[]] + q';
        RecordsWithOpenBlock(h, [[]] + q);
        RecordsWithOpenBlock(h, [[]] + q');
        assert h + [] == h;
        assert ([h] + q)[1..] == q && ([h] + q')[1..] == q';
      } else {
        UnmatchedIgnoredAfter(h + [a[0]], a', b);
        assert Split(s, Blank) == WithOpenBlock([a[0]], q);
        assert Split(t, Blank) == WithOpenBlock([a[0]], q');
        WithOpenBlockTwice(h, [a[0]], q);
        WithOpenBlockTwice(h, [a[0]], q');
      }
    }
  }

  /**
   * A non-blank line that does not match the pattern is dropped: it neither
   * closes its block nor changes any record.
   */
  lemma UnmatchedLineIgnored(a: seq<LineKind>, b: seq<LineKind>)
    ensures Segment(a + [Unmatched] + b) == Segment(a + b)
  {
    UnmatchedIgnoredAfter([], a, b);
    var p := Split(a + [Unmatched] + b, Blank);
    var p' := Split(a + b, Blank);
    WithEmptyOpenBlock(p);
    WithEmptyOpenBlock(p');
  }

  /** A blank line closes the open block and opens an empty one. */
  lemma BlankLineStep(ks: seq<LineKind>, i: nat, block: seq<LineKind>)
    requires i < |ks| && ks[i] == Blank
    ensures Records(WithOpenBlock(block, Split(ks[i..], Blank))) ==
            Emit(BuildRecord(block)) + Records(WithOpenBlock([], Split(ks[i + 1..], Blank)))
  {
    var rest := Split(ks[i + 1..], Blank);
    assert ks[i..][0] == Blank && ks[i..][1..] == ks[i + 1..];
    assert Split(ks[i..], Blank) == [[]] + rest;
    RecordsWithOpenBlock(block, [[]] + rest);
    assert block + [] == block && ([[]] + rest)[1..] == rest;
    WithEmptyOpenBlock(rest);
  }

  /** Any other line joins the open block. */
  lemma OtherLineStep(ks: seq<LineKind>, i: nat, block: seq<LineKind>)
    requires i < |ks| && ks[i] != Blank
    ensures WithOpenBlock(block, Split(ks[i..], Blank)) ==
            WithOpenBlock(block + [ks[i]], Split(ks[i + 1..], Blank))
    ensures BuildRecord(block + [ks[i]]) == AddLine(BuildRecord(block), ks[i])
  {
    var rest := Split(ks[i + 1..], Blank);
    assert ks[i..][0] == ks[i] && ks[i..][1..] == ks[i + 1..];
    assert Split(ks[i..], Blank) == WithOpenBlock([ks[i]], rest);
    WithOpenBlockTwice(block, [ks[i]], rest);
    assert (block + [ks[i]])[..|block|] == block;
  }

  /** At the end of the text the open block is the last one. */
  lemma EndOfTextStep(ks: seq<LineKind>, block: seq<LineKind>)
    ensures Records(WithOpenBlock(block, Split(ks[|ks|..], Blank))) == Emit(BuildRecord(block))
  {
    assert ks[|ks|..] == [];
    RecordsWithOpenBlock(block, [[]]);
    assert block + [] == block;
  }

  /**
   * What the loop of `parse_unimarc_text` keeps: the records emitted so far,
   * followed by the records of the open block and of the rest of the text,
   * are the records of the whole text.
   */
  ghost predicate Progress(ks: seq<LineKind>, i: nat, block: seq<LineKind>, records: seq<Record>)
    requires i <= |ks|
  {
    records + Records(WithOpenBlock(block, Split(ks[i..], Blank))) == Segment(ks)
  }

  /** A blank line emits the open block's record, if any, and opens an empty block. */
  lemma ProgressAtBlank(ks: seq<LineKind>, i: nat, block: seq<LineKind>, records: seq<Record>)
    requires i < |ks| && ks[i] == Blank
    requires Progress(ks, i, block, records)
    ensures Progress(ks, i + 1, [], records + Emit(BuildRecord(block)))
  {
    BlankLineStep(ks, i, block);
    var later := Records(WithOpenBlock([], Split(ks[i + 1..], Blank)));
    assert records + (Emit(BuildRecord(block)) + later) == (records + Emit(BuildRecord(block))) + later;
  }

  /** Any other line is added to the open block and to the record being built. */
  lemma ProgressAtOther(ks: seq<LineKind>, i: nat, block: seq<LineKind>, records: seq<Record>)
    requires i < |ks| && ks[i] != Blank
    requires Progress(ks, i, block, records)
    ensures Progress(ks, i + 1, block + [ks[i]], records)
    ensures BuildRecord(block + [ks[i]]) == AddLine(BuildRecord(block), ks[i])
  {
    OtherLineStep(ks, i, block);
  }

  /** `parse_unimarc_text` over the lines of the file. */
  method ParseUnimarcText(lines: seq<string>) returns (records: seq<Record>)
    ensures records == Segment(ClassifyAll(lines))
  {
    ghost var ks := ClassifyAll(lines);
    records := [];
    var current: Record := [];
    ghost var block: seq<LineKind> := [];
    var i := 0;
    WithEmptyOpenBlock(Split(ks, Blank));
    assert ks[0..] == ks;
    assert Progress(ks, 0, block, records);
    while i < |lines|
      invariant i <= |lines|
      invariant current == BuildRecord(block)
      invariant Progress(ks, i, block, records)
    {
      var line := Strip(lines[i]);
      assert ks[i] == Classify(lines[i]);
      if line == [] {
        ProgressAtBlank(ks, i, block, records);
        if current != [] {
          records := records + [current];
          current := [];
        } else {
          assert records + Emit(current) == records;
        }
        block := [];
      } else {
        ProgressAtOther(ks, i, block, records);
        var m := MatchTagLine(line);
        if m.Some? {
          current := Append(current, m.value.0, m.value.1);
        }
        block := block + [ks[i]];
      }
      i := i + 1;
    }
    EndOfTextStep(ks, block);
    assert records + Emit(current) == Segment(ks);
    if current != [] {
      records := records + [current];
    }
  }
}
