/**
 * `parse_subfields`: the content of a UNIMARC field is cut at `$`; every
 * piece after the first is a one-character subfield code followed by the
 * subfield's value, stored stripped in a dictionary where a later code
 * overwrites an earlier one.
 */
module Subfields {
  import opened Wrappers
  import opened Text
  import opened Sequences

  /** The only way `parse_subfields` fails: a `$` followed directly by `$` or by the end. */
  datatype SubfieldError = EmptySubfield

  type SubfieldMap = map<char, string>

  /** The pieces of `content` after its first `$`: each starts with a subfield code. */
  function Segments(content: string): seq<string> {
    Split(content, '$')[1..]
  }

  /** The dictionary the loop builds from code-led pieces, later pieces winning. */
  function CodeMap(segs: seq<string>): SubfieldMap
    requires [] !in segs
  {
    if segs == [] then map[]
    else
      var last := segs[|segs| - 1];
      CodeMap(segs[..|segs| - 1])[last[0] := Strip(last[1..])]
  }

  /** The dictionary holds exactly the codes of the pieces. */
  lemma {:induction false} CodeMapDomain(segs: seq<string>)
    requires [] !in segs
    ensures forall c :: c in CodeMap(segs) <==> exists i :: 0 <= i < |segs| && segs[i][0] == c
  {
    if segs != [] {
      var init := segs[..|segs| - 1];
      CodeMapDomain(init);
      assert forall i :: 0 <= i < |init| ==> init[i] == segs[i];
    }
  }

  /** The value kept under a code is the stripped value of its last piece. */
  lemma {:induction false} CodeMapLast(segs: seq<string>, i: nat)
    requires [] !in segs
    requires i < |segs|
    requires forall j :: i < j < |segs| ==> segs[j][0] != segs[i][0]
    ensures segs[i][0] in CodeMap(segs) && CodeMap(segs)[segs[i][0]] == Strip(segs[i][1..])
  {
    var init := segs[..|segs| - 1];
    if i < |segs| - 1 {
      assert init[i] == segs[i];
      forall j | i < j < |init| ensures init[j][0] != init[i][0] {
        assert init[j] == segs[j];
      }
      CodeMapLast(init, i);
    }
  }

  /** What `parse_subfields` returns for `content`; the `IndexError` on an empty piece is `Failure`. */
  function SubfieldsOf(content: string): (r: Result<SubfieldMap, SubfieldError>)
    ensures r.Failure? <==> [] in Segments(content)
  {
    var segs := Segments(content);
    if [] in segs then Failure(EmptySubfield) else Success(CodeMap(segs))
  }

  /**
   * `parse_subfields` fails exactly when some `$` ends the content or is
   * directly followed by another `$`: that piece has no code character.
   */
  lemma SubfieldsFailure(content: string)
    ensures SubfieldsOf(content).Failure? <==> exists i :: DanglingAt(content, '$', i)
  {
    EmptyPieceAfterFirst(content, '$');
  }

  /** `parse_subfields`, the loop over the pieces. */
  method ParseSubfields(content: string) returns (r: Result<SubfieldMap, SubfieldError>)
    ensures r == SubfieldsOf(content)
  {
    var parts := Split(content, '$');
    assert Segments(content) == parts[1..];
    var subfields: SubfieldMap := map[];
    var i := 1;
    while i < |parts|
      invariant 1 <= i <= |parts|
      invariant [] !in parts[1..i]
      invariant subfields == CodeMap(parts[1..i])
    {
      var subfield := parts[i];
      if subfield == [] {
        assert parts[1..][i - 1] == [];
        return Failure(EmptySubfield);
      }
      assert parts[1..i + 1] == parts[1..i] + [subfield];
      assert [] !in parts[1..i + 1];
      CodeMapSnoc(parts[1..i], subfield);
      subfields := subfields[subfield[0] := Strip(subfield[1..])];
      i := i + 1;
    }
    assert parts[1..i] == parts[1..];
    return Success(subfields);
  }

  /** One more piece, when it is not empty, adds or overwrites its code. */
  lemma CodeMapSnoc(segs: seq<string>, x: string)
    requires [] !in segs + [x]
    ensures CodeMap(segs + [x]) == CodeMap(segs)[x[0] := Strip(x[1..])]
  {
    var all := segs + [x];
    assert all[..|segs|] == segs && all[|segs|] == x;
  }

  /** Text before the first `$` is ignored. */
  lemma LeadingTextIgnored(p: string, q: string, s: string)
    requires '$' !in p && '$' !in q
    ensures SubfieldsOf(p + s) == SubfieldsOf(q + s)
  {
    SplitPrefix(p, '$', s);
    SplitPrefix(q, '$', s);
  }

  /** A content that ends in `$` makes `parse_subfields` fail. */
  lemma TrailingSeparatorFails(s: string)
    ensures SubfieldsOf(s + ['$']).Failure?
  {
    SplitAround(s, '$', []);
    assert s + ['$'] + [] == s + ['$'];
    var parts := Split(s + ['$'], '$');
    assert parts[|parts| - 1] == [];
    assert Segments(s + ['$'])[|parts| - 2] == [];
  }

  /** The field content that holds the subfields `fs`, in order. */
  function Render(fs: seq<(char, string)>): string {
    if fs == [] then [] else ['$', fs[0].0] + fs[0].1 + Render(fs[1..])
  }

  /** One subfield as the piece `split('$')` returns for it. */
  function Pieces(fs: seq<(char, string)>): (ps: seq<string>)
    ensures |ps| == |fs| && forall i :: 0 <= i < |fs| ==> ps[i] == [fs[i].0] + fs[i].1
  {
    seq(|fs|, i requires 0 <= i < |fs| => [fs[i].0] + fs[i].1)
  }

  /** Concatenation is associative, stated for the rearrangement `RenderJoin` needs. */
  lemma SeqAssoc(a: string, b: string, c: string)
    ensures a + b + c == a + (b + c)
  {
  }

  /** A non-empty rendering is `$` followed by the pieces joined at `$`. */
  lemma {:induction false} RenderJoin(fs: seq<(char, string)>)
    requires fs != []
    ensures Render(fs) == ['$'] + Join(Pieces(fs), '$')
  {
    var ps := Pieces(fs);
    var head := ['$', fs[0].0] + fs[0].1;
    assert head == ['$'] + ps[0];
    assert Render(fs) == head + Render(fs[1..]);
    if |fs| > 1 {
      var tail := Join(ps[1..], '$');
      assert Render(fs[1..]) == ['$'] + tail by {
        RenderJoin(fs[1..]);
        assert Pieces(fs[1..]) == ps[1..];
      }
      assert Join(ps, '$') == ps[0] + ['$'] + tail;
      SeqAssoc(['$'], ps[0], ['$'] + tail);
    } else {
      assert Render(fs[1..]) == [];
      assert Join(ps, '$') == ps[0];
    }
  }

  /** No piece of a rendering, the leading text included, holds a `$`. */
  lemma PiecesWithoutSeparator(lead: string, fs: seq<(char, string)>)
    requires '$' !in lead
    requires forall i :: 0 <= i < |fs| ==> fs[i].0 != '$' && '$' !in fs[i].1
    ensures forall k :: 0 <= k < |[lead] + Pieces(fs)| ==> '$' !in ([lead] + Pieces(fs))[k]
  {
    var ps := Pieces(fs);
    forall k | 0 <= k < |[lead] + ps| ensures '$' !in ([lead] + ps)[k] {
      if k > 0 {
        var p := ([lead] + ps)[k];
        assert p == [fs[k - 1].0] + fs[k - 1].1;
        assert p[0] != '$' && '$' !in p[1..];
      }
    }
  }

  /** The code-led pieces of a join of `$`-free pieces are all but the first. */
  lemma SegmentsOfJoin(text: seq<string>)
    requires |text| >= 1
    requires forall k :: 0 <= k < |text| ==> '$' !in text[k]
    ensures Segments(Join(text, '$')) == text[1..]
  {
    SplitJoin(text, '$');
  }

  /** The code-led pieces of a rendered field are its subfields, one each. */
  lemma SegmentsOfRender(lead: string, fs: seq<(char, string)>)
    requires '$' !in lead
    requires forall i :: 0 <= i < |fs| ==> fs[i].0 != '$' && '$' !in fs[i].1
    ensures Segments(lead + Render(fs)) == Pieces(fs)
  {
    if fs == [] {
      assert lead + Render(fs) == lead;
      SplitWithout(lead, '$');
    } else {
      SegmentsOfNonEmptyRender(lead, fs);
    }
  }

  /** `SegmentsOfRender` for at least one subfield. */
  lemma SegmentsOfNonEmptyRender(lead: string, fs: seq<(char, string)>)
    requires '$' !in lead
    requires forall i :: 0 <= i < |fs| ==> fs[i].0 != '$' && '$' !in fs[i].1
    requires fs != []
    ensures Segments(lead + Render(fs)) == Pieces(fs)
  {
    LeadRenderJoin(lead, fs);
    SegmentsOfLeadAndPieces(lead, fs);
  }

  /** A non-empty rendering after the leading text is the join of all pieces at `$`. */
  lemma LeadRenderJoin(lead: string, fs: seq<(char, string)>)
    requires fs != []
    ensures lead + Render(fs) == Join([lead] + Pieces(fs), '$')
  {
    var ps := Pieces(fs);
    var j := Join(ps, '$');
    RenderJoin(fs);
    JoinCons(lead, ps, '$');
    SeqAssoc(lead, ['$'], j);
  }

  /** The code-led pieces of the leading text joined with the subfields' pieces. */
  lemma SegmentsOfLeadAndPieces(lead: string, fs: seq<(char, string)>)
    requires '$' !in lead
    requires forall i :: 0 <= i < |fs| ==> fs[i].0 != '$' && '$' !in fs[i].1
    ensures Segments(Join([lead] + Pieces(fs), '$')) == Pieces(fs)
  {
    var text := [lead] + Pieces(fs);
    PiecesWithoutSeparator(lead, fs);
    SegmentsOfJoin(text);
    assert text[1..] == Pieces(fs);
  }

  /** The dictionary built from the pieces of subfields holds exactly their codes. */
  lemma PiecesCodes(fs: seq<(char, string)>)
    ensures [] !in Pieces(fs)
    ensures forall c :: c in CodeMap(Pieces(fs)) <==> exists i :: 0 <= i < |fs| && fs[i].0 == c
  {
    var segs := Pieces(fs);
    CodeMapDomain(segs);
    assert forall i :: 0 <= i < |fs| ==> segs[i][0] == fs[i].0;
  }

  /** Under each code it keeps the value of the code's last subfield, when values are stripped. */
  lemma PiecesValues(fs: seq<(char, string)>)
    requires forall i :: 0 <= i < |fs| ==> Strip(fs[i].1) == fs[i].1
    ensures [] !in Pieces(fs)
    ensures forall i :: 0 <= i < |fs| && (forall j :: i < j < |fs| ==> fs[j].0 != fs[i].0) ==>
      fs[i].0 in CodeMap(Pieces(fs)) && CodeMap(Pieces(fs))[fs[i].0] == fs[i].1
  {
    var segs := Pieces(fs);
    PiecesCodes(fs);
    forall i | 0 <= i < |fs| && (forall j :: i < j < |fs| ==> fs[j].0 != fs[i].0)
      ensures fs[i].0 in CodeMap(segs) && CodeMap(segs)[fs[i].0] == fs[i].1
    {
      assert segs[i][0] == fs[i].0 && segs[i][1..] == fs[i].1;
      forall j | i < j < |segs| ensures segs[j][0] != segs[i][0] {
        assert segs[j][0] == fs[j].0;
      }
      CodeMapLast(segs, i);
    }
  }

  /**
   * Parsing a rendered field gives back its subfields: every code is
   * present, and holds the value of its last subfield, provided codes are not
   * `$` and values hold no `$` and no surrounding whitespace.
   */
  lemma RenderParse(lead: string, fs: seq<(char, string)>)
    requires '$' !in lead
    requires forall i :: 0 <= i < |fs| ==> fs[i].0 != '$' && '$' !in fs[i].1 && Strip(fs[i].1) == fs[i].1
    ensures var r := SubfieldsOf(lead + Render(fs));
      r.Success? &&
      (forall c :: c in r.value <==> exists i :: 0 <= i < |fs| && fs[i].0 == c) &&
      forall i :: 0 <= i < |fs| && (forall j :: i < j < |fs| ==> fs[j].0 != fs[i].0) ==>
        r.value[fs[i].0] == fs[i].1
  {
    SegmentsOfRender(lead, fs);
    PiecesCodes(fs);
    PiecesValues(fs);
  }
}
