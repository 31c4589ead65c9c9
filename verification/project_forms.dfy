/** What the two project forms share: the project payload built from the form
    fields, the comma-separated tag text and its parsing, the form field
    update and the error text shown when a request fails. The create form is
    CSpaceFrontEnd/my_app/src/components/CreateProjectModal.js, the edit form
    CSpaceFrontEnd/CSpace-app/src/components/EditProjectModal.js; both parse
    tags with the same chain of calls. */
module ProjectForms {
  import opened Wrappers
  import opened Seqs
  import opened Text

  /** The `formData` object of both modals; `tags` is the raw text typed in. */
  datatype FormData = FormData(name: string, description: string, category: string, tags: string)

  const EmptyForm := FormData("", "", "", "")

  datatype Field = Name | Description | Category | Tags

  function FieldValue(d: FormData, f: Field): string {
    match f
    case Name => d.name
    case Description => d.description
    case Category => d.category
    case Tags => d.tags
  }

  /** `{ ...prev, [field]: value }`: the named field takes the new value and
      every other field keeps its old one. */
  function SetField(d: FormData, f: Field, value: string): (r: FormData)
    ensures FieldValue(r, f) == value
    ensures forall g :: g != f ==> FieldValue(r, g) == FieldValue(d, g)
  {
    match f
    case Name => d.(name := value)
    case Description => d.(description := value)
    case Category => d.(category := value)
    case Tags => d.(tags := value)
  }

  /** The body of the POST or PUT request. */
  datatype ProjectPayload = ProjectPayload(name: string, description: string, category: string, tags: seq<string>)

  /** What the HTTP call reported: success, or a rejection that may carry
      `err.response.data.message`. */
  datatype RequestOutcome = Succeeded | Rejected(message: Option<string>)

  function TrimAll(xs: seq<string>): (r: seq<string>)
    ensures |r| == |xs|
    ensures forall k :: 0 <= k < |xs| ==> r[k] == Trim(xs[k])
  {
    seq(|xs|, k requires 0 <= k < |xs| => Trim(xs[k]))
  }

  predicate NonEmpty(t: string) {
    |t| > 0
  }

  /** `tags.split(',').map(t => t.trim()).filter(t => t.length > 0)`:
      every tag is non-empty, trimmed and free of commas. */
  function ParseTags(text: string): (tags: seq<string>)
    ensures forall k :: 0 <= k < |tags| ==> tags[k] != [] && IsTrimmed(tags[k]) && ',' !in tags[k]
  {
    var pieces := Split(text, ',');
    var trimmed := TrimAll(pieces);
    assert forall j :: 0 <= j < |trimmed| ==> IsTrimmed(trimmed[j]) && ',' !in trimmed[j] by {
      forall j | 0 <= j < |trimmed| ensures IsTrimmed(trimmed[j]) && ',' !in trimmed[j] {
        TrimKeepsOut(pieces[j], ',');
      }
    }
    Filter(trimmed, NonEmpty)
  }

  /** The payload copies name, description and category verbatim and sends the parsed tags. */
  function Payload(d: FormData): (p: ProjectPayload)
    ensures p.name == d.name && p.description == d.description && p.category == d.category
    ensures p.tags == ParseTags(d.tags)
  {
    ProjectPayload(d.name, d.description, d.category, ParseTags(d.tags))
  }

  /** `tags.join(', ')`, as the edit form shows a project's tags. */
  function JoinTags(tags: seq<string>): string {
    Join(tags, ", ")
  }

  /** A tag that survives a join and a parse unchanged. */
  predicate WellFormedTag(t: string) {
    t != [] && IsTrimmed(t) && ',' !in t
  }

  /** `err.response?.data?.message || fallback`: the server's message when it
      sent a non-empty one, the fixed fallback otherwise. */
  function ErrorText(message: Option<string>, fallback: string): (r: string)
    ensures message.Some? && message.value != "" ==> r == message.value
    ensures r == fallback || (message == Some(r) && r != "")
    ensures fallback != "" ==> r != ""
  {
    if message.Some? && message.value != "" then message.value else fallback
  }

  /** Parsing keeps the left-to-right order of the pieces between commas, and
      those pieces are exactly the input cut at its commas. */
  lemma ParseTagsInOrder(text: string)
    ensures IsSubsequence(ParseTags(text), TrimAll(Split(text, ',')))
    ensures Join(Split(text, ','), [',']) == text
  {
    FilterIsSubsequence(TrimAll(Split(text, ',')), NonEmpty);
    JoinSplit(text, ',');
  }

  /** A text made only of commas and white space (the empty text included)
      parses to no tags, and no other text does. */
  lemma ParseTagsBlank(text: string)
    ensures ParseTags(text) == [] <==> forall i :: 0 <= i < |text| ==> text[i] == ',' || IsWhitespace(text[i])
  {
    var pieces := Split(text, ',');
    var trimmed := TrimAll(pieces);
    if forall i :: 0 <= i < |text| ==> text[i] == ',' || IsWhitespace(text[i]) {
      forall k | 0 <= k < |trimmed| ensures trimmed[k] == [] {
        forall j | 0 <= j < |pieces[k]| ensures IsWhitespace(pieces[k][j]) {
          SplitPieceChars(text, ',', k, pieces[k][j]);
        }
        TrimEmpty(pieces[k]);
      }
      FilterKeepsNone(trimmed, NonEmpty);
    } else {
      var i :| 0 <= i < |text| && text[i] != ',' && !IsWhitespace(text[i]);
      var k := SplitCoversChars(text, ',', i);
      TrimEmpty(pieces[k]);
      assert NonEmpty(trimmed[k]);
    }
  }

  lemma TrimAllCons(a: string, rest: seq<string>)
    ensures TrimAll([a] + rest) == [Trim(a)] + TrimAll(rest)
  {
    assert ([a] + rest)[1..] == rest;
  }

  lemma JoinTagsCons(xs: seq<string>)
    requires |xs| >= 2
    ensures JoinTags(xs) == xs[0] + [','] + (" " + JoinTags(xs[1..]))
  {
    assert JoinTags(xs) == xs[0] + ", " + JoinTags(xs[1..]);
  }

  lemma ParseTagsUnfold(text: string)
    ensures ParseTags(text) == Filter(TrimAll(Split(text, ',')), NonEmpty)
  {
  }

  lemma TrimAllOne(a: string)
    ensures TrimAll([a]) == [Trim(a)]
  {
  }

  lemma JoinTagsOne(t: string)
    ensures JoinTags([t]) == t
  {
  }

  /** A comma-free tag behind at most one blank is still comma-free. */
  lemma PaddedCommaFree(t: string, pad: string)
    requires ',' !in t && (pad == [] || pad == " ")
    ensures ',' !in pad + t
  {
  }

  lemma TrimAllSplitJoinOne(t: string, pad: string)
    requires WellFormedTag(t) && (pad == [] || pad == " ")
    ensures TrimAll(Split(pad + JoinTags([t]), ',')) == [t]
  {
    var first := pad + t;
    JoinTagsOne(t);
    PaddedCommaFree(t, pad);
    SplitWithoutSeparator(first, ',');
    TrimOfTrimmed(t, pad);
    TrimAllOne(first);
  }

  lemma SplitJoinTagsCons(xs: seq<string>, pad: string)
    requires |xs| >= 2 && ',' !in xs[0] && (pad == [] || pad == " ")
    ensures Split(pad + JoinTags(xs), ',') == [pad + xs[0]] + Split(" " + JoinTags(xs[1..]), ',')
  {
    var first := pad + xs[0];
    var rest := " " + JoinTags(xs[1..]);
    assert ',' !in first;
    JoinTagsCons(xs);
    assert pad + JoinTags(xs) == first + [','] + rest;
    SplitAfterPiece(first, rest, ',');
  }

  lemma TrimAllSplitJoinStep(xs: seq<string>, pad: string)
    requires |xs| >= 2 && WellFormedTag(xs[0]) && (pad == [] || pad == " ")
    requires TrimAll(Split(" " + JoinTags(xs[1..]), ',')) == xs[1..]
    ensures TrimAll(Split(pad + JoinTags(xs), ',')) == xs
  {
    var rest := Split(" " + JoinTags(xs[1..]), ',');
    SplitJoinTagsCons(xs, pad);
    TrimOfTrimmed(xs[0], pad);
    TrimAllCons(pad + xs[0], rest);
    HeadTail(xs[0], xs[1..], xs);
  }

  lemma {:induction false} TrimAllSplitJoin(xs: seq<string>, pad: string)
    requires |xs| >= 1 && (pad == [] || pad == " ")
    requires forall k :: 0 <= k < |xs| ==> WellFormedTag(xs[k])
    ensures TrimAll(Split(pad + JoinTags(xs), ',')) == xs
  {
    if |xs| == 1 {
      TrimAllSplitJoinOne(xs[0], pad);
      assert [xs[0]] == xs;
    } else {
      TrimAllSplitJoin(xs[1..], " ");
      TrimAllSplitJoinStep(xs, pad);
    }
  }

  /** Round trip: parsing the `', '`-joined tags gives the tags back when each
      is non-empty, trimmed and free of commas. */
  lemma ParseJoinTags(xs: seq<string>)
    requires forall k :: 0 <= k < |xs| ==> WellFormedTag(xs[k])
    ensures ParseTags(JoinTags(xs)) == xs
  {
    ParseTagsUnfold(JoinTags(xs));
    if xs == [] {
      assert Split(JoinTags(xs), ',') == [[]];
      TrimAllOne([]);
    } else {
      TrimAllSplitJoin(xs, []);
      assert [] + JoinTags(xs) == JoinTags(xs);
      FilterKeepsAll(xs, NonEmpty);
    }
  }

  /** The tag text "x, y" of a newly created project is sent as the two tags "x" and "y". */
  lemma ParseTagsExample()
    ensures ParseTags("x, y") == ["x", "y"]
  {
    assert JoinTags(["x", "y"]) == "x, y";
    assert WellFormedTag("x") && WellFormedTag("y");
    ParseJoinTags(["x", "y"]);
  }
}
