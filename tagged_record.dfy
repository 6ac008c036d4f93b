/**
 * A tagged UNIMARC record as the converter holds it: a Python dict from a
 * three-digit field tag to the list of that tag's field contents, in the
 * dict's insertion order. The dict is an association list here; `Append`
 * adds one content at the end of a tag's list, creating the list if needed.
 */
module TaggedRecord {
  import opened Wrappers

  datatype Field = Field(tag: string, contents: seq<string>)

  type Record = seq<Field>

  /** One (tag, content) pair, as the conversion loop visits it. */
  datatype Occurrence = Occurrence(tag: string, content: string)

  /** The tags of `r` in insertion order (Python's `record.keys()`). */
  function Tags(r: Record): (ts: seq<string>)
    ensures |ts| == |r| && forall j :: 0 <= j < |r| ==> ts[j] == r[j].tag
  {
    seq(|r|, j requires 0 <= j < |r| => r[j].tag)
  }

  /** Python's `record.get(t)`. */
  function Find(r: Record, t: string): Option<seq<string>> {
    if r == [] then None
    else if r[0].tag == t then Some(r[0].contents)
    else Find(r[1..], t)
  }

  /** The contents stored under `t`, empty when `t` is absent. */
  function Contents(r: Record, t: string): seq<string> {
    Find(r, t).GetOr([])
  }

  /** What a dict built only by `Append` always satisfies. */
  predicate WellFormed(r: Record) {
    (forall i, j :: 0 <= i < j < |r| ==> r[i].tag != r[j].tag) &&
    (forall i :: 0 <= i < |r| ==> r[i].contents != [])
  }

  /** In a well-formed record every list `record.get(t)` returns is non-empty. */
  lemma {:induction false} FindNonEmpty(r: Record, t: string)
    requires WellFormed(r)
    ensures Find(r, t) != Some([])
  {
    if r != [] && r[0].tag != t {
      assert forall i :: 0 <= i < |r| - 1 ==> r[1..][i] == r[i + 1];
      FindNonEmpty(r[1..], t);
    }
  }

  /** Adds `c` at the end of the list of `t`, creating an empty list for a new tag first. */
  function Append(r: Record, t: string, c: string): (r': Record)
    ensures Contents(r', t) == Contents(r, t) + [c]
    ensures forall u :: u != t ==> Find(r', u) == Find(r, u)
    ensures r' != []
  {
    if r == [] then [Field(t, [c])]
    else if r[0].tag == t then [Field(t, r[0].contents + [c])] + r[1..]
    else [r[0]] + Append(r[1..], t, c)
  }

  /** A new tag goes to the end of the key order; a known tag keeps its place. */
  lemma {:induction false} AppendTags(r: Record, t: string, c: string)
    ensures Tags(Append(r, t, c)) == if t in Tags(r) then Tags(r) else Tags(r) + [t]
  {
    if r == [] {
    } else if r[0].tag == t {
      assert t == Tags(r)[0];
      assert Tags(Append(r, t, c)) == Tags(r) by {
        TagsCons(Field(t, r[0].contents + [c]), r[1..]);
        TagsCons(r[0], r[1..]);
      }
    } else {
      AppendTags(r[1..], t, c);
      TagsCons(r[0], r[1..]);
      TagsCons(r[0], Append(r[1..], t, c));
      assert (t in Tags(r)) == (t in Tags(r[1..]));
      if t !in Tags(r[1..]) {
        assert [r[0].tag] + (Tags(r[1..]) + [t]) == Tags(r) + [t];
      }
    }
  }

  /** The tags of a record with one more field in front. */
  lemma TagsCons(f: Field, r: Record)
    ensures Tags([f] + r) == [f.tag] + Tags(r)
  {
  }

  /** Every field of the result is a field of `r` or holds `c`. */
  lemma {:induction false} AppendFields(r: Record, t: string, c: string)
    ensures forall j :: 0 <= j < |Append(r, t, c)| ==>
      Append(r, t, c)[j] in r || Append(r, t, c)[j].contents != []
  {
    if r != [] && r[0].tag != t {
      AppendFields(r[1..], t, c);
    }
  }

  /** Appending keeps the tags distinct and every list non-empty. */
  lemma AppendWellFormed(r: Record, t: string, c: string)
    requires WellFormed(r)
    ensures WellFormed(Append(r, t, c))
  {
    var r' := Append(r, t, c);
    AppendTags(r, t, c);
    AppendFields(r, t, c);
    assert Tags(r') == if t in Tags(r) then Tags(r) else Tags(r) + [t];
  }

  /** The fields of one tag, as the pairs the conversion loop visits. */
  function Pairs(f: Field): (ps: seq<Occurrence>)
    ensures |ps| == |f.contents|
    ensures forall k :: 0 <= k < |ps| ==> ps[k] == Occurrence(f.tag, f.contents[k])
  {
    seq(|f.contents|, k requires 0 <= k < |f.contents| => Occurrence(f.tag, f.contents[k]))
  }

  /**
   * Every (tag, content) pair of `r`, in the order of
   * the conversion loop: tags in key order, each tag's contents in list order.
   */
  function Occurrences(r: Record): seq<Occurrence> {
    if r == [] then [] else Occurrences(r[..|r| - 1]) + Pairs(r[|r| - 1])
  }

  /** The pairs of the first `i` fields come first among all pairs. */
  lemma {:induction false} OccurrencesPrefix(r: Record, i: nat)
    requires i <= |r|
    ensures Occurrences(r[..i]) <= Occurrences(r)
    decreases |r| - i
  {
    if i < |r| {
      OccurrencesPrefix(r, i + 1);
      assert r[..i + 1][..i] == r[..i];
    } else {
      assert r[..i] == r;
    }
  }
}
