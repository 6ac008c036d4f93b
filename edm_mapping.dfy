/**
 * The mapping loop of `convert_to_europeana_jsonld`: every parsed record
 * becomes one Europeana item (an `edm:ProvidedCHO` with its
 * `ore:Aggregation`), filled field by field from the record's tags.
 */
module EdmMapping {
  import opened Wrappers
  import opened Text
  import opened Sequences
  import opened TaggedRecord
  import opened Subfields
  import opened Segmentation

  const ChoPrefix := "http://example.org/edm/cho/"
  const AggregationPrefix := "http://example.org/edm/aggregation/"
  const ResourcePrefix := "http://example.org/edm/resource/"
  const PreviewPrefix := "http://example.org/preview/"
  const ProvidedCho := "edm:ProvidedCHO"

  const IdentifierTag := "001"
  const TitleTag := "200"
  const PublicationTag := "210"
  const PhysicalDescriptionTag := "215"
  const SubjectTag := "606"
  const PersonalAuthorTag := "700"
  const CorporateAuthorTag := "710"

  const DefaultIdentifier := "unknown"
  const UnknownTitle := "Unknown Title"
  const UnknownAuthor := "Unknown Author"
  const UnknownCorporateAuthor := "Unknown Corporate Author"
  const UnknownDate := "Unknown Date"
  const SubtitleLabel := "Sottotitolo: "
  const ExtentLabel := "Descrizione fisica: "

  /** The `@context` of the output document. */
  const EdmContext: map<string, string> := map[
    "edm" := "http://www.europeana.eu/schemas/edm/",
    "dc" := "http://purl.org/dc/elements/1.1/",
    "dcterms" := "http://purl.org/dc/terms/",
    "ore" := "http://www.openarchives.org/ore/terms/"]

  /** The `ore:Aggregation` object of an item. */
  datatype Aggregation = Aggregation(
    id: string,             // @id
    aggregatedCho: string,  // edm:aggregatedCHO
    isShownAt: string,      // edm:isShownAt
    preview: string)        // edm:preview

  /** One `edm:ProvidedCHO` item of the `@graph`. */
  datatype Item = Item(
    id: string,                 // @id
    itemType: string,           // @type
    title: string,              // dc:title
    creators: seq<string>,      // dc:creator
    date: string,               // dc:date
    subjects: seq<string>,      // dc:subject
    descriptions: seq<string>,  // dc:description
    isShownAt: string,          // edm:isShownAt
    preview: string,            // edm:preview
    aggregation: Aggregation)   // ore:Aggregation

  /** Why a conversion stops: the `IndexError`s the loop can raise. */
  datatype ConvertError =
    | IdentifierListEmpty                   // record['001'] == []
    | SubfieldFailure(cause: SubfieldError) // parse_subfields failed

  /** The output document: `{"@graph": items, "@context": ...}`. */
  datatype Document = Document(context: map<string, string>, graph: seq<Item>)

  /** The first 001 content, stripped; "unknown" when the record has no 001 list, an error when it is empty. */
  function IdentifierOf(rec: Record): Result<string, ConvertError> {
    var ids := Find(rec, IdentifierTag).GetOr([DefaultIdentifier]);
    if ids == [] then Failure(IdentifierListEmpty) else Success(Strip(ids[0]))
  }

  /** The item as it stands before any field has been read. */
  function NewItem(identifier: string): Item {
    var cho := ChoPrefix + identifier;
    var resource := ResourcePrefix + identifier;
    var preview := PreviewPrefix + identifier;
    Item(cho, ProvidedCho, "", [], "", [], [], resource, preview,
         Aggregation(AggregationPrefix + identifier, cho, resource, preview))
  }

  /** The value of subfield `code`, or `default` when it is absent (a dictionary lookup with a default). */
  function Get(sf: SubfieldMap, code: char, default: string): string {
    if code in sf then sf[code] else default
  }

  /** A field occurrence with its subfields parsed. */
  datatype Entry = Entry(tag: string, subfields: SubfieldMap)

  /** The effect of one field occurrence on the item, by tag. */
  function Apply(item: Item, tag: string, sf: SubfieldMap): Item {
    if tag == TitleTag then
      var subtitle := Get(sf, 'e', "");
      item.(title := Get(sf, 'a', UnknownTitle),
            descriptions := if subtitle != "" then item.descriptions + [SubtitleLabel + subtitle]
                            else item.descriptions)
    else if tag == PersonalAuthorTag then
      item.(creators := item.creators + [Get(sf, 'a', UnknownAuthor)])
    else if tag == CorporateAuthorTag then
      item.(creators := item.creators + [Get(sf, 'a', UnknownCorporateAuthor)])
    else if tag == PublicationTag then
      item.(date := Get(sf, 'd', UnknownDate))
    else if tag == PhysicalDescriptionTag then
      var extent := Get(sf, 'a', "");
      item.(descriptions := if extent != "" then item.descriptions + [ExtentLabel + extent]
                            else item.descriptions)
    else if tag == SubjectTag then
      var subject := Get(sf, 'a', "");
      item.(subjects := if subject != "" then item.subjects + [subject] else item.subjects)
    else item
  }

  /** The subfield parser, `parse_subfields`. */
  type Parser = string -> Result<SubfieldMap, SubfieldError>

  /**
   * The occurrences with their subfields parsed by `parse`, or the failure
   * of the first occurrence whose subfields cannot be parsed.
   */
  function ParseAll(occs: seq<Occurrence>, parse: Parser): Result<seq<Entry>, ConvertError> {
    if occs == [] then Success([])
    else
      match ParseAll(occs[..|occs| - 1], parse)
      case Failure(e) => Failure(e)
      case Success(es) =>
        var o := occs[|occs| - 1];
        match parse(o.content)
        case Failure(e) => Failure(SubfieldFailure(e))
        case Success(sf) => Success(es + [Entry(o.tag, sf)])
  }

  /** The item after the parsed occurrences `es`, first to last. */
  function FillAll(item: Item, es: seq<Entry>): Item {
    if es == [] then item
    else
      var e := es[|es| - 1];
      Apply(FillAll(item, es[..|es| - 1]), e.tag, e.subfields)
  }

  /** The item one record converts to, or why its conversion fails. */
  function MapRecord(rec: Record): Result<Item, ConvertError> {
    match IdentifierOf(rec)
    case Failure(e) => Failure(e)
    case Success(identifier) =>
      match ParseAll(Occurrences(rec), SubfieldsOf)
      case Failure(e) => Failure(e)
      case Success(es) => Success(FillAll(NewItem(identifier), es))
  }

  /** Once an occurrence fails to parse, later occurrences change nothing. */
  lemma {:induction false} ParseAllFailureSticks(a: seq<Occurrence>, b: seq<Occurrence>, parse: Parser)
    requires ParseAll(a, parse).Failure?
    ensures ParseAll(a + b, parse) == ParseAll(a, parse)
    decreases |b|
  {
    if b == [] {
      assert a + b == a;
    } else {
      ParseAllFailureSticks(a, b[..|b| - 1], parse);
      assert (a + b)[..|a + b| - 1] == a + b[..|b| - 1];
    }
  }

  /**
   * Parsing fails exactly when some occurrence has unparsable subfields;
   * otherwise every occurrence gives the entry of its tag and its subfields.
   */
  lemma {:induction false} ParseAllEntries(occs: seq<Occurrence>, parse: Parser)
    ensures ParseAll(occs, parse).Failure? <==>
      exists k :: 0 <= k < |occs| && parse(occs[k].content).Failure?
    ensures ParseAll(occs, parse).Success? ==>
      |ParseAll(occs, parse).value| == |occs| &&
      forall k :: 0 <= k < |occs| ==>
        parse(occs[k].content).Success? &&
        ParseAll(occs, parse).value[k] == Entry(occs[k].tag, parse(occs[k].content).value)
  {
    if occs != [] {
      var init := occs[..|occs| - 1];
      ParseAllEntries(init, parse);
      assert forall k :: 0 <= k < |init| ==> init[k] == occs[k];
    }
  }

  /** The loop of `convert_to_europeana_jsonld` over the fields of one record. */
  method ConvertRecord(rec: Record) returns (r: Result<Item, ConvertError>)
    ensures r == MapRecord(rec)
  {
    var ids := Find(rec, IdentifierTag).GetOr([DefaultIdentifier]);
    if ids == [] {
      return Failure(IdentifierListEmpty);
    }
    var identifier := Strip(ids[0]);
    ghost var start := NewItem(identifier);
    ghost var es: seq<Entry> := [];
    var item := NewItem(identifier);
    var i := 0;
    while i < |rec|
      invariant i <= |rec|
      invariant ParseAll(Occurrences(rec[..i]), SubfieldsOf) == Success(es)
      invariant item == FillAll(start, es)
    {
      var filled := ConvertField(rec[i], item);
      FieldStep(rec, i, es, SubfieldsOf);
      if filled.Failure? {
        return Failure(filled.error);
      }
      ghost var fes := ParseAll(Pairs(rec[i]), SubfieldsOf).value;
      FillAllConcat(start, es, fes);
      item := filled.value;
      es := es + fes;
      i := i + 1;
    }
    assert rec[..i] == rec;
    return Success(item);
  }

  /** The item after the parsed contents of one field, or why they fail to parse. */
  function FillParsed(item: Item, parsed: Result<seq<Entry>, ConvertError>): Result<Item, ConvertError> {
    match parsed
    case Failure(e) => Failure(e)
    case Success(es) => Success(FillAll(item, es))
  }

  /** The inner loop: the contents of one field, parsed and applied in list order. */
  method ConvertField(f: Field, item: Item) returns (r: Result<Item, ConvertError>)
    ensures r == FillParsed(item, ParseAll(Pairs(f), SubfieldsOf))
  {
    ghost var es: seq<Entry> := [];
    var current := item;
    var j := 0;
    while j < |f.contents|
      invariant j <= |f.contents|
      invariant ParseAll(Pairs(f)[..j], SubfieldsOf) == Success(es)
      invariant current == FillAll(item, es)
    {
      var subfields := ParseSubfields(f.contents[j]);
      PairsStep(f, j, es, SubfieldsOf);
      if subfields.Failure? {
        return Failure(SubfieldFailure(subfields.error));
      }
      var sf := subfields.value;
      current := ApplyField(current, f.tag, sf);
      FillAllSnoc(item, es, Entry(f.tag, sf));
      es := es + [Entry(f.tag, sf)];
      j := j + 1;
    }
    assert Pairs(f)[..j] == Pairs(f);
    return Success(current);
  }

  /** The chain of tag tests applied to one parsed field occurrence. */
  method ApplyField(item: Item, tag: string, sf: SubfieldMap) returns (result: Item)
    ensures result == Apply(item, tag, sf)
  {
    result := item;
    if tag == TitleTag {
      result := result.(title := Get(sf, 'a', UnknownTitle));
      var subtitle := Get(sf, 'e', "");
      if subtitle != "" {
        result := result.(descriptions := result.descriptions + [SubtitleLabel + subtitle]);
      }
    } else if tag == PersonalAuthorTag {
      var author := Get(sf, 'a', UnknownAuthor);
      result := result.(creators := result.creators + [author]);
    } else if tag == CorporateAuthorTag {
      var corporateAuthor := Get(sf, 'a', UnknownCorporateAuthor);
      result := result.(creators := result.creators + [corporateAuthor]);
    } else if tag == PublicationTag {
      result := result.(date := Get(sf, 'd', UnknownDate));
    } else if tag == PhysicalDescriptionTag {
      var extent := Get(sf, 'a', "");
      if extent != "" {
        result := result.(descriptions := result.descriptions + [ExtentLabel + extent]);
      }
    } else if tag == SubjectTag {
      var subject := Get(sf, 'a', "");
      if subject != "" {
        result := result.(subjects := result.subjects + [subject]);
      }
    }
  }

  /**
   * Parsing the `j`-th content of field `f`: on success the parsed prefix
   * grows by its entry, on failure the whole field fails with it.
   */
  lemma PairsStep(f: Field, j: nat, es: seq<Entry>, parse: Parser)
    requires j < |f.contents| && ParseAll(Pairs(f)[..j], parse) == Success(es)
    ensures var c := f.contents[j];
      parse(c).Success? ==> ParseAll(Pairs(f)[..j + 1], parse) == Success(es + [Entry(f.tag, parse(c).value)])
    ensures var c := f.contents[j];
      parse(c).Failure? ==> ParseAll(Pairs(f), parse) == Failure(SubfieldFailure(parse(c).error))
  {
    var ps := Pairs(f);
    assert ps[..j + 1][..j] == ps[..j];
    if parse(f.contents[j]).Failure? {
      ParseAllFailureSticks(ps[..j + 1], ps[j + 1..], parse);
      assert ps[..j + 1] + ps[j + 1..] == ps;
    }
  }

  /**
   * Parsing field `i` after the fields before it: on success the entries
   * grow by the field's entries, on failure the whole record fails with it.
   */
  lemma FieldStep(rec: Record, i: nat, es: seq<Entry>, parse: Parser)
    requires i < |rec| && ParseAll(Occurrences(rec[..i]), parse) == Success(es)
    ensures match ParseAll(Pairs(rec[i]), parse)
      case Failure(e) => ParseAll(Occurrences(rec), parse) == Failure(e)
      case Success(fes) => ParseAll(Occurrences(rec[..i + 1]), parse) == Success(es + fes)
  {
    assert rec[..i + 1][..i] == rec[..i];
    var done := Occurrences(rec[..i + 1]);
    assert done == Occurrences(rec[..i]) + Pairs(rec[i]);
    ParseAllConcat(Occurrences(rec[..i]), Pairs(rec[i]), parse);
    if ParseAll(Pairs(rec[i]), parse).Failure? {
      OccurrencesPrefix(rec, i + 1);
      var rest := Occurrences(rec)[|done|..];
      PrefixAndRest(done, Occurrences(rec));
      ParseAllFailureSticks(done, rest, parse);
    }
  }

  /** Parsing a concatenation: the entries of the first part, then those of the second. */
  lemma {:induction false} ParseAllConcat(a: seq<Occurrence>, b: seq<Occurrence>, parse: Parser)
    requires ParseAll(a, parse).Success?
    ensures ParseAll(a + b, parse) ==
      match ParseAll(b, parse)
      case Failure(e) => Failure(e)
      case Success(y) => Success(ParseAll(a, parse).value + y)
    decreases |b|
  {
    if b == [] {
      assert a + b == a;
      assert ParseAll(a, parse).value + [] == ParseAll(a, parse).value;
    } else {
      var init, o := b[..|b| - 1], b[|b| - 1];
      ParseAllConcat(a, init, parse);
      var ab := a + b;
      assert ab[..|ab| - 1] == a + init && ab[|ab| - 1] == o;
      var x := ParseAll(a, parse).value;
      match ParseAll(init, parse)
      case Failure(e) =>
      case Success(y) =>
        match parse(o.content)
        case Failure(e) =>
        case Success(sf) =>
          assert x + y + [Entry(o.tag, sf)] == x + (y + [Entry(o.tag, sf)]);
    }
  }

  /** Filling with one more entry applies that entry last. */
  lemma FillAllSnoc(item: Item, es: seq<Entry>, e: Entry)
    ensures FillAll(item, es + [e]) == Apply(FillAll(item, es), e.tag, e.subfields)
  {
    assert (es + [e])[..|es|] == es;
  }

  /** Filling with two runs of entries is filling with the first, then the second. */
  lemma {:induction false} FillAllConcat(item: Item, a: seq<Entry>, b: seq<Entry>)
    ensures FillAll(item, a + b) == FillAll(FillAll(item, a), b)
    decreases |b|
  {
    if b == [] {
      assert a + b == a;
    } else {
      var init := b[..|b| - 1];
      FillAllConcat(item, a, init);
      assert (a + b)[..|a + b| - 1] == a + init;
      assert (a + b)[|a + b| - 1] == b[|b| - 1];
    }
  }

  /** 700 and 710 occurrences each give one `dc:creator`. */
  predicate IsCreator(e: Entry) {
    e.tag == PersonalAuthorTag || e.tag == CorporateAuthorTag
  }

  function CreatorName(e: Entry): string {
    Get(e.subfields, 'a', if e.tag == PersonalAuthorTag then UnknownAuthor else UnknownCorporateAuthor)
  }

  /** 606 occurrences with a non-empty `$a` each give one `dc:subject`. */
  predicate IsSubject(e: Entry) {
    e.tag == SubjectTag && Get(e.subfields, 'a', "") != ""
  }

  function SubjectOf(e: Entry): string {
    Get(e.subfields, 'a', "")
  }

  /**
   * 200 occurrences with a non-empty `$e` (subtitle) and 215 occurrences with
   * a non-empty `$a` (extent) each give one `dc:description`.
   */
  predicate IsDescribed(e: Entry) {
    (e.tag == TitleTag && Get(e.subfields, 'e', "") != "") ||
    (e.tag == PhysicalDescriptionTag && Get(e.subfields, 'a', "") != "")
  }

  function DescriptionOf(e: Entry): string {
    if e.tag == TitleTag then SubtitleLabel + Get(e.subfields, 'e', "")
    else ExtentLabel + Get(e.subfields, 'a', "")
  }

  /** The position of the last entry with tag `t`, if any. */
  function LastWithTag(es: seq<Entry>, t: string): (k: Option<nat>)
    ensures k.None? <==> forall i :: 0 <= i < |es| ==> es[i].tag != t
    ensures k.Some? ==>
      k.value < |es| && es[k.value].tag == t &&
      forall i :: k.value < i < |es| ==> es[i].tag != t
  {
    if es == [] then None
    else if es[|es| - 1].tag == t then Some(|es| - 1)
    else LastWithTag(es[..|es| - 1], t)
  }

  /** The title kept: that of the last 200 occurrence, `$a` or the default. */
  function TitleAfter(before: string, es: seq<Entry>): string {
    match LastWithTag(es, TitleTag)
    case None => before
    case Some(k) => Get(es[k].subfields, 'a', UnknownTitle)
  }

  /** The date kept: that of the last 210 occurrence, `$d` or the default. */
  function DateAfter(before: string, es: seq<Entry>): string {
    match LastWithTag(es, PublicationTag)
    case None => before
    case Some(k) => Get(es[k].subfields, 'd', UnknownDate)
  }

  /** Filling never touches the links of the item. */
  lemma {:induction false} FillKeepsLinks(item: Item, es: seq<Entry>)
    ensures var it := FillAll(item, es);
      it.id == item.id && it.itemType == item.itemType && it.isShownAt == item.isShownAt &&
      it.preview == item.preview && it.aggregation == item.aggregation
  {
    if es != [] {
      FillKeepsLinks(item, es[..|es| - 1]);
    }
  }

  /** `Map` over `Filter` gains at most the image of one new element. */
  lemma MapFilterSnoc<U>(s: seq<Entry>, e: Entry, p: Entry -> bool, f: Entry -> U)
    ensures Map(Filter(s + [e], p), f) == Map(Filter(s, p), f) + if p(e) then [f(e)] else []
  {
    assert (s + [e])[..|s|] == s;
    if p(e) {
      MapSnoc(Filter(s, p), e, f);
    } else {
      assert Filter(s + [e], p) == Filter(s, p);
    }
  }

  /** One creator per 700/710 occurrence, in order. */
  lemma {:induction false} FillCreators(item: Item, es: seq<Entry>)
    ensures FillAll(item, es).creators == item.creators + Map(Filter(es, IsCreator), CreatorName)
  {
    if es != [] {
      var init := es[..|es| - 1];
      FillCreators(item, init);
      assert es == init + [es[|es| - 1]];
      MapFilterSnoc(init, es[|es| - 1], IsCreator, CreatorName);
    }
  }

  /** One subject per 606 occurrence with a non-empty `$a`, in order. */
  lemma {:induction false} FillSubjects(item: Item, es: seq<Entry>)
    ensures FillAll(item, es).subjects == item.subjects + Map(Filter(es, IsSubject), SubjectOf)
  {
    if es != [] {
      var init := es[..|es| - 1];
      FillSubjects(item, init);
      assert es == init + [es[|es| - 1]];
      MapFilterSnoc(init, es[|es| - 1], IsSubject, SubjectOf);
    }
  }

  /** One description per subtitle or extent, in order, labelled by kind. */
  lemma {:induction false} FillDescriptions(item: Item, es: seq<Entry>)
    ensures FillAll(item, es).descriptions ==
      item.descriptions + Map(Filter(es, IsDescribed), DescriptionOf)
  {
    if es != [] {
      var init := es[..|es| - 1];
      FillDescriptions(item, init);
      assert es == init + [es[|es| - 1]];
      MapFilterSnoc(init, es[|es| - 1], IsDescribed, DescriptionOf);
    }
  }

  /** The last 200 occurrence decides the title; a later one overwrites an earlier one. */
  lemma {:induction false} FillTitle(item: Item, es: seq<Entry>)
    ensures FillAll(item, es).title == TitleAfter(item.title, es)
  {
    if es != [] {
      FillTitle(item, es[..|es| - 1]);
    }
  }

  /** The last 210 occurrence decides the date. */
  lemma {:induction false} FillDate(item: Item, es: seq<Entry>)
    ensures FillAll(item, es).date == DateAfter(item.date, es)
  {
    if es != [] {
      FillDate(item, es[..|es| - 1]);
    }
  }

  /** Without a 001 field the identifier is "unknown"; otherwise it is the stripped first 001 content. */
  lemma IdentifierCases(rec: Record)
    ensures match Find(rec, IdentifierTag)
      case None => IdentifierOf(rec) == Success(DefaultIdentifier)
      case Some(ids) =>
        if |ids| == 0 then IdentifierOf(rec) == Failure(IdentifierListEmpty)
        else IdentifierOf(rec) == Success(Strip(ids[0]))
  {
    if Find(rec, IdentifierTag).None? {
      DefaultIdentifierStripped();
    }
  }

  /** The default identifier has no surrounding whitespace. */
  lemma DefaultIdentifierStripped()
    ensures Strip(DefaultIdentifier) == DefaultIdentifier
  {
    var d := DefaultIdentifier;
    assert d[0] == 'u' && d[|d| - 1] == 'n';
    StripKeeps(d);
  }

  /** A record built by the segmenter always has an identifier. */
  lemma WellFormedHasIdentifier(rec: Record)
    requires WellFormed(rec)
    ensures IdentifierOf(rec).Success?
  {
    FindNonEmpty(rec, IdentifierTag);
  }

  /** Every record the segmenter produces from a text has an identifier. */
  lemma SegmentedRecordsHaveIdentifiers(lines: seq<string>)
    ensures forall k :: 0 <= k < |Segment(ClassifyAll(lines))| ==>
      IdentifierOf(Segment(ClassifyAll(lines))[k]).Success?
  {
    var records := Segment(ClassifyAll(lines));
    RecordsNonEmpty(Split(ClassifyAll(lines), Blank));
    forall k | 0 <= k < |records| ensures IdentifierOf(records[k]).Success? {
      WellFormedHasIdentifier(records[k]);
    }
  }

  /**
   * A record fails to convert exactly when its 001 list is empty or one of
   * its field contents has subfields `parse_subfields` cannot split.
   */
  lemma MapRecordFailure(rec: Record)
    ensures MapRecord(rec).Failure? <==>
      Find(rec, IdentifierTag) == Some([]) ||
      exists k :: 0 <= k < |Occurrences(rec)| && SubfieldsOf(Occurrences(rec)[k].content).Failure?
  {
    var occs := Occurrences(rec);
    ParseAllEntries(occs, SubfieldsOf);
    if Find(rec, IdentifierTag) != Some([]) {
      assert IdentifierOf(rec).Success?;
      assert MapRecord(rec).Failure? <==> ParseAll(occs, SubfieldsOf).Failure?;
      if ParseAll(occs, SubfieldsOf).Failure? {
        var k :| 0 <= k < |occs| && (SubfieldsOf)(occs[k].content).Failure?;
        assert SubfieldsOf(occs[k].content).Failure?;
        assert MapRecord(rec).Failure?;
        assert exists j :: 0 <= j < |Occurrences(rec)| && SubfieldsOf(Occurrences(rec)[j].content).Failure?;
      } else {
        forall k | 0 <= k < |occs| ensures SubfieldsOf(occs[k].content).Success? {
          assert (SubfieldsOf)(occs[k].content).Success?;
        }
      }
    }
  }

  /**
   * The item a record converts to: its links are built from the identifier,
   * and its fields are those the record's occurrences, in order, determine.
   */
  lemma MapRecordItem(rec: Record)
    requires MapRecord(rec).Success?
    ensures IdentifierOf(rec).Success? && ParseAll(Occurrences(rec), SubfieldsOf).Success?
    ensures var identifier := IdentifierOf(rec).value;
      var it := MapRecord(rec).value;
      it.id == ChoPrefix + identifier && it.itemType == ProvidedCho &&
      it.isShownAt == ResourcePrefix + identifier && it.preview == PreviewPrefix + identifier &&
      it.aggregation == Aggregation(AggregationPrefix + identifier, it.id, it.isShownAt, it.preview)
    ensures var es := ParseAll(Occurrences(rec), SubfieldsOf).value;
      var it := MapRecord(rec).value;
      it.title == TitleAfter("", es) && it.date == DateAfter("", es) &&
      it.creators == Map(Filter(es, IsCreator), CreatorName) &&
      it.subjects == Map(Filter(es, IsSubject), SubjectOf) &&
      it.descriptions == Map(Filter(es, IsDescribed), DescriptionOf)
  {
    var identifier := IdentifierOf(rec).value;
    var es := ParseAll(Occurrences(rec), SubfieldsOf).value;
    FillKeepsLinks(NewItem(identifier), es);
    FillTitle(NewItem(identifier), es);
    FillDate(NewItem(identifier), es);
    FillCreators(NewItem(identifier), es);
    FillSubjects(NewItem(identifier), es);
    FillDescriptions(NewItem(identifier), es);
  }

  /** No `dc:subject` entry is empty. */
  lemma SubjectsNonEmpty(rec: Record)
    requires MapRecord(rec).Success?
    ensures forall k :: 0 <= k < |MapRecord(rec).value.subjects| ==> MapRecord(rec).value.subjects[k] != ""
  {
    MapRecordItem(rec);
    var es := ParseAll(Occurrences(rec), SubfieldsOf).value;
    FilterSatisfies(es, IsSubject);
  }

  /** How one record is converted, `MapRecord` in the converter. */
  type Converter = Record -> Result<Item, ConvertError>

  /** The items of `records` in order, or the error of the first record that fails. */
  function ConvertAll(records: seq<Record>, convert: Converter): Result<seq<Item>, ConvertError> {
    if records == [] then Success([])
    else
      match ConvertAll(records[..|records| - 1], convert)
      case Failure(e) => Failure(e)
      case Success(items) =>
        match convert(records[|records| - 1])
        case Failure(e) => Failure(e)
        case Success(it) => Success(items + [it])
  }

  /**
   * Conversion succeeds exactly when every record converts; it then yields
   * one item per record, in order.
   */
  lemma {:induction false} ConvertAllItems(records: seq<Record>, convert: Converter)
    ensures ConvertAll(records, convert).Success? <==>
      forall k :: 0 <= k < |records| ==> convert(records[k]).Success?
    ensures ConvertAll(records, convert).Success? ==>
      |ConvertAll(records, convert).value| == |records| &&
      forall k :: 0 <= k < |records| ==> ConvertAll(records, convert).value[k] == convert(records[k]).value
  {
    if records != [] {
      var init := records[..|records| - 1];
      ConvertAllItems(init, convert);
      assert forall k :: 0 <= k < |init| ==> init[k] == records[k];
    }
  }

  /** A failed conversion reports the error of the first record that fails. */
  lemma {:induction false} ConvertAllFirstFailure(records: seq<Record>, convert: Converter)
    requires ConvertAll(records, convert).Failure?
    ensures exists k ::
      0 <= k < |records| && convert(records[k]).Failure? &&
      ConvertAll(records, convert).error == convert(records[k]).error &&
      forall j :: 0 <= j < k ==> convert(records[j]).Success?
  {
    var init := records[..|records| - 1];
    assert forall k :: 0 <= k < |init| ==> init[k] == records[k];
    if ConvertAll(init, convert).Failure? {
      ConvertAllFirstFailure(init, convert);
    } else {
      ConvertAllItems(init, convert);
    }
  }

  /**
   * `convert_to_europeana_jsonld` without the file write: the document whose
   * `@graph` holds one item per record and whose `@context` is the EDM one.
   */
  method ConvertToEuropeana(records: seq<Record>) returns (r: Result<Document, ConvertError>)
    ensures r.Success? <==> ConvertAll(records, MapRecord).Success?
    ensures r.Success? ==> r.value == Document(EdmContext, ConvertAll(records, MapRecord).value)
    ensures r.Failure? ==> r.error == ConvertAll(records, MapRecord).error
  {
    var items: seq<Item> := [];
    var i := 0;
    while i < |records|
      invariant i <= |records|
      invariant ConvertAll(records[..i], MapRecord) == Success(items)
    {
      var item := ConvertRecord(records[i]);
      ConvertStep(records, i, items, MapRecord);
      if item.Failure? {
        return Failure(item.error);
      }
      items := items + [item.value];
      i := i + 1;
    }
    assert records[..i] == records;
    return Success(Document(EdmContext, items));
  }

  /**
   * Converting record `i` after a successful prefix: success appends its
   * item, failure makes the whole conversion fail with its error.
   */
  lemma ConvertStep(records: seq<Record>, i: nat, items: seq<Item>, convert: Converter)
    requires i < |records| && ConvertAll(records[..i], convert) == Success(items)
    ensures convert(records[i]).Success? ==>
      ConvertAll(records[..i + 1], convert) == Success(items + [convert(records[i]).value])
    ensures convert(records[i]).Failure? ==>
      ConvertAll(records, convert) == Failure(convert(records[i]).error)
  {
    assert records[..i + 1][..i] == records[..i];
    if convert(records[i]).Failure? {
      ConvertAllFailureSticks(records, i + 1, convert);
    }
  }

  /** Once a prefix of the records fails, the whole conversion fails with it. */
  lemma {:induction false} ConvertAllFailureSticks(records: seq<Record>, i: nat, convert: Converter)
    requires i <= |records| && ConvertAll(records[..i], convert).Failure?
    ensures ConvertAll(records, convert) == ConvertAll(records[..i], convert)
    decreases |records| - i
  {
    if i == |records| {
      assert records[..i] == records;
    } else {
      assert records[..i + 1][..i] == records[..i];
      ConvertAllFailureSticks(records, i + 1, convert);
    }
  }
}
