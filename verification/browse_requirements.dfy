/** The requirement browser of the front end
    (CSpaceFrontEnd/my_app/src/pages/BrowseRequirements.js): a conjunctive
    filter over four axes (status, skill level, free-text search, tags), the
    tag chips that toggle in and out of the filter, the reset button, the tag
    catalogue built from the fetched requirements and the skill-level label. */
module BrowseRequirements {
  import opened Wrappers
  import opened Seqs
  import opened Text

  /** A requirement as the page receives it. `projectName` is
      `req.project?.name`: None when the project or its name is missing.
      `tags` is None when the field is missing or not an array. */
  datatype Requirement = Requirement(
    title: string,
    description: string,
    status: string,
    priority: string,
    projectName: Option<string>,
    tags: Option<seq<string>>)

  /** The `filters` state object. */
  datatype Filters = Filters(status: string, skillLevel: string, searchTerm: string, selectedTags: seq<string>)

  /** The state the page starts in: only open requirements are shown. */
  const InitialFilters := Filters("OPEN", "ALL", "", [])

  /** The value of the status and skill selects that means "no constraint". */
  const All := "ALL"

  predicate StatusOk(f: Filters, r: Requirement) {
    f.status == All || r.status == f.status
  }

  predicate SkillOk(f: Filters, r: Requirement) {
    f.skillLevel == All || r.priority == f.skillLevel
  }

  /** The lower-cased term occurs in the lower-cased title, description or
      (present and non-empty) project name. */
  predicate SearchHit(term: string, r: Requirement) {
    var q := Lower(term);
    Contains(Lower(r.title), q)
    || Contains(Lower(r.description), q)
    || (r.projectName.Some? && r.projectName.value != "" && Contains(Lower(r.projectName.value), q))
  }

  predicate SearchOk(f: Filters, r: Requirement) {
    f.searchTerm == "" || SearchHit(f.searchTerm, r)
  }

  /** `selected.some(tag => tags.includes(tag))`, scanning left to right. */
  predicate SomeIncluded(selected: seq<string>, tags: seq<string>) {
    selected != [] && (selected[0] in tags || SomeIncluded(selected[1..], tags))
  }

  lemma {:induction false} SomeIncludedExists(selected: seq<string>, tags: seq<string>)
    ensures SomeIncluded(selected, tags) <==> exists t :: t in selected && t in tags
  {
    if selected != [] {
      SomeIncludedExists(selected[1..], tags);
      if exists t :: t in selected && t in tags {
        var t :| t in selected && t in tags;
        if t != selected[0] {
          assert t in selected[1..];
        }
      }
    }
  }

  /** The requirement has tags and one of the selected tags is among them. */
  predicate HasSelectedTag(selected: seq<string>, r: Requirement) {
    r.tags.Some? && SomeIncluded(selected, r.tags.value)
  }

  predicate TagsOk(f: Filters, r: Requirement) {
    |f.selectedTags| == 0 || HasSelectedTag(f.selectedTags, r)
  }

  /** A requirement is shown iff it passes all four axes. */
  predicate Matches(f: Filters, r: Requirement) {
    StatusOk(f, r) && SkillOk(f, r) && SearchOk(f, r) && TagsOk(f, r)
  }

  /** The requirements shown under `f`: those that match, in their original order. */
  function Visible(f: Filters, reqs: seq<Requirement>): seq<Requirement> {
    Filter(reqs, Shown(f))
  }

  /** `Matches` as a test that can be handed to a filter. */
  function Shown(f: Filters): Requirement -> bool {
    r => Matches(f, r)
  }

  /** The conjunction of the first `n` axes, in the order the passes run. */
  predicate MatchesUpTo(f: Filters, n: nat, r: Requirement) {
    (n >= 1 ==> StatusOk(f, r))
    && (n >= 2 ==> SkillOk(f, r))
    && (n >= 3 ==> SearchOk(f, r))
    && (n >= 4 ==> TagsOk(f, r))
  }

  function UpTo(f: Filters, n: nat): Requirement -> bool {
    r => MatchesUpTo(f, n, r)
  }

  /** The test of each of the four passes. */
  function ByStatus(f: Filters): Requirement -> bool {
    (req: Requirement) => req.status == f.status
  }

  function BySkill(f: Filters): Requirement -> bool {
    (req: Requirement) => req.priority == f.skillLevel
  }

  function BySearch(f: Filters): Requirement -> bool {
    req => SearchHit(f.searchTerm, req)
  }

  function ByTags(f: Filters): Requirement -> bool {
    req => HasSelectedTag(f.selectedTags, req)
  }

  /** One more pass: when the axis constrains, filtering by its test refines
      the first `n` axes to the first `n + 1`; when it does not, the result
      already satisfies it. */
  lemma NextPass(reqs: seq<Requirement>, f: Filters, n: nat, applied: bool, test: Requirement -> bool)
    requires forall r :: applied ==> (MatchesUpTo(f, n + 1, r) <==> MatchesUpTo(f, n, r) && test(r))
    requires forall r :: !applied ==> (MatchesUpTo(f, n + 1, r) <==> MatchesUpTo(f, n, r))
    ensures applied ==> Filter(Filter(reqs, UpTo(f, n)), test) == Filter(reqs, UpTo(f, n + 1))
    ensures !applied ==> Filter(reqs, UpTo(f, n)) == Filter(reqs, UpTo(f, n + 1))
  {
    if applied {
      FilterThen(reqs, UpTo(f, n), test, UpTo(f, n + 1));
    } else {
      FilterSame(reqs, UpTo(f, n), UpTo(f, n + 1));
    }
  }

  lemma StatusPass(reqs: seq<Requirement>, f: Filters)
    ensures f.status != All ==> Filter(Filter(reqs, UpTo(f, 0)), ByStatus(f)) == Filter(reqs, UpTo(f, 1))
    ensures f.status == All ==> Filter(reqs, UpTo(f, 0)) == Filter(reqs, UpTo(f, 1))
  {
    NextPass(reqs, f, 0, f.status != All, ByStatus(f));
  }

  lemma SkillPass(reqs: seq<Requirement>, f: Filters)
    ensures f.skillLevel != All ==> Filter(Filter(reqs, UpTo(f, 1)), BySkill(f)) == Filter(reqs, UpTo(f, 2))
    ensures f.skillLevel == All ==> Filter(reqs, UpTo(f, 1)) == Filter(reqs, UpTo(f, 2))
  {
    NextPass(reqs, f, 1, f.skillLevel != All, BySkill(f));
  }

  lemma SearchPass(reqs: seq<Requirement>, f: Filters)
    ensures f.searchTerm != "" ==> Filter(Filter(reqs, UpTo(f, 2)), BySearch(f)) == Filter(reqs, UpTo(f, 3))
    ensures f.searchTerm == "" ==> Filter(reqs, UpTo(f, 2)) == Filter(reqs, UpTo(f, 3))
  {
    NextPass(reqs, f, 2, f.searchTerm != "", BySearch(f));
  }

  lemma TagsPass(reqs: seq<Requirement>, f: Filters)
    ensures |f.selectedTags| > 0 ==> Filter(Filter(reqs, UpTo(f, 3)), ByTags(f)) == Filter(reqs, UpTo(f, 4))
    ensures |f.selectedTags| == 0 ==> Filter(reqs, UpTo(f, 3)) == Filter(reqs, UpTo(f, 4))
    ensures Filter(reqs, UpTo(f, 4)) == Filter(reqs, Shown(f))
  {
    NextPass(reqs, f, 3, |f.selectedTags| > 0, ByTags(f));
    FilterSame(reqs, UpTo(f, 4), Shown(f));
  }

  /** `applyFilters`: up to four successive filter passes, each run only when
      its axis constrains; the result is exactly the matching requirements in
      their original order. */
  method ApplyFilters(requirements: seq<Requirement>, filters: Filters) returns (filtered: seq<Requirement>)
    ensures filtered == Visible(filters, requirements)
  {
    filtered := requirements;
    FilterKeepsAll(requirements, UpTo(filters, 0));

    StatusPass(requirements, filters);
    if filters.status != All {
      filtered := Keep(filtered, ByStatus(filters));
    }

    SkillPass(requirements, filters);
    if filters.skillLevel != All {
      filtered := Keep(filtered, BySkill(filters));
    }

    SearchPass(requirements, filters);
    if filters.searchTerm != "" {
      filtered := Keep(filtered, BySearch(filters));
    }

    TagsPass(requirements, filters);
    if |filters.selectedTags| > 0 {
      filtered := Keep(filtered, ByTags(filters));
    }
  }

  /** Filtering keeps order and adds nothing. */
  lemma {:induction false} VisibleIsSubsequence(f: Filters, reqs: seq<Requirement>)
    ensures IsSubsequence(Visible(f, reqs), reqs)
  {
    FilterIsSubsequence(reqs, Shown(f));
  }

  /** Every shown requirement has the selected status and skill level, unless
      that select is at "ALL". */
  lemma {:induction false} VisibleStatusAndSkill(f: Filters, reqs: seq<Requirement>, i: nat)
    requires i < |Visible(f, reqs)|
    ensures f.status != All ==> Visible(f, reqs)[i].status == f.status
    ensures f.skillLevel != All ==> Visible(f, reqs)[i].priority == f.skillLevel
  {
    assert Matches(f, Visible(f, reqs)[i]);
  }

  /** With a non-empty search term, a requirement that passes the other three
      axes is shown iff the lower-cased term occurs in its lower-cased title,
      description or non-empty project name. */
  lemma {:induction false} VisibleSearch(f: Filters, reqs: seq<Requirement>, r: Requirement)
    requires f.searchTerm != "" && r in reqs
    requires StatusOk(f, r) && SkillOk(f, r) && TagsOk(f, r)
    ensures r in Visible(f, reqs) <==>
      Contains(Lower(r.title), Lower(f.searchTerm))
      || Contains(Lower(r.description), Lower(f.searchTerm))
      || (r.projectName.Some? && r.projectName.value != "" && Contains(Lower(r.projectName.value), Lower(f.searchTerm)))
  {
    var i :| 0 <= i < |reqs| && reqs[i] == r;
    if SearchHit(f.searchTerm, r) {
      assert Matches(f, reqs[i]);
    }
  }

  /** With tags selected, a requirement that passes the other three axes is
      shown iff it has tags and one of the selected tags is among them. */
  lemma {:induction false} VisibleTags(f: Filters, reqs: seq<Requirement>, r: Requirement)
    requires |f.selectedTags| > 0 && r in reqs
    requires StatusOk(f, r) && SkillOk(f, r) && SearchOk(f, r)
    ensures r in Visible(f, reqs) <==>
      r.tags.Some? && exists t :: t in f.selectedTags && t in r.tags.value
  {
    var i :| 0 <= i < |reqs| && reqs[i] == r;
    if r.tags.Some? {
      SomeIncludedExists(f.selectedTags, r.tags.value);
    }
    if HasSelectedTag(f.selectedTags, r) {
      assert Matches(f, reqs[i]);
    }
  }

  /** With no constraint on any axis the whole list is shown, unchanged. */
  lemma {:induction false} VisibleUnconstrained(reqs: seq<Requirement>)
    ensures Visible(Filters(All, All, "", []), reqs) == reqs
  {
    FilterKeepsAll(reqs, Shown(Filters(All, All, "", [])));
  }

  /** `toggleTag`: a selected tag is removed (every copy of it), an absent one
      is appended at the end; no other tag and no other field changes. */
  function ToggleTag(f: Filters, tag: string): (r: Filters)
    ensures r.status == f.status && r.skillLevel == f.skillLevel && r.searchTerm == f.searchTerm
    ensures tag in r.selectedTags <==> tag !in f.selectedTags
    ensures forall t :: t != tag ==> (t in r.selectedTags <==> t in f.selectedTags)
    ensures tag !in f.selectedTags ==> r.selectedTags == f.selectedTags + [tag]
  {
    f.(selectedTags :=
         if tag in f.selectedTags then Filter(f.selectedTags, t => t != tag)
         else f.selectedTags + [tag])
  }

  /** Toggling an unselected tag twice restores the filters exactly. */
  lemma {:induction false} ToggleTagTwiceAbsent(f: Filters, tag: string)
    requires tag !in f.selectedTags
    ensures ToggleTag(ToggleTag(f, tag), tag) == f
  {
    var sel := f.selectedTags;
    FilterAppend(sel, [tag], t => t != tag);
    FilterKeepsAll(sel, t => t != tag);
    assert Filter([tag], t => t != tag) == [];
  }

  /** Toggling any tag twice restores which tags are selected. */
  lemma {:induction false} ToggleTagTwice(f: Filters, tag: string)
    ensures forall t :: t in ToggleTag(ToggleTag(f, tag), tag).selectedTags <==> t in f.selectedTags
  {
  }

  /** `clearFilters`: back to open requirements, any skill, no search, no tags. */
  function ClearFilters(): (r: Filters)
    ensures r.status == "OPEN" && r.skillLevel == All && r.searchTerm == "" && r.selectedTags == []
  {
    Filters("OPEN", All, "", [])
  }

  /** Clearing returns to the initial state, which shows exactly the open
      requirements and not every requirement. */
  lemma {:induction false} ClearFiltersShowsOpen(reqs: seq<Requirement>)
    ensures ClearFilters() == InitialFilters
    ensures Visible(ClearFilters(), reqs) == Filter(reqs, (r: Requirement) => r.status == "OPEN")
  {
    FilterSame(reqs, Shown(ClearFilters()), (r: Requirement) => r.status == "OPEN");
  }

  /** Status OPEN and skill HIGH over one open/high, one open/low and one
      closed/high requirement shows exactly the first. */
  lemma OpenHighScenario(a: Requirement, b: Requirement, c: Requirement)
    requires a.status == "OPEN" && a.priority == "HIGH"
    requires b.status == "OPEN" && b.priority == "LOW"
    requires c.status == "CLOSED" && c.priority == "HIGH"
    ensures Visible(Filters("OPEN", "HIGH", "", []), [a, b, c]) == [a]
  {
    var f := Filters("OPEN", "HIGH", "", []);
    assert [a, b, c][1..] == [b, c];
    assert [b, c][1..] == [c];
    assert Filter([c], Shown(f)) == [];
    assert Filter([b, c], Shown(f)) == [];
  }

  /** The tags of one requirement, none when it has no tag array. */
  function TagsOf(r: Requirement): seq<string> {
    if r.tags.Some? then r.tags.value else []
  }

  /** Every tag of every requirement, in order, with repetitions. */
  function AllTags(data: seq<Requirement>): seq<string> {
    if data == [] then [] else AllTags(data[..|data| - 1]) + TagsOf(data[|data| - 1])
  }

  /** The tag catalogue of `fetchAllRequirements`: every tag is added to a
      set, then the set is sorted. The result holds each tag of the data
      exactly once, in ascending order. */
  method BuildTagCatalogue(data: seq<Requirement>) returns (availableTags: seq<string>)
    ensures StrictlySorted(availableTags)
    ensures forall t :: t in availableTags <==> t in AllTags(data)
  {
    var tags: seq<string> := [];
    var i := 0;
    while i < |data|
      invariant 0 <= i <= |data|
      invariant NoDuplicates(tags)
      invariant forall t :: t in tags <==> t in AllTags(data[..i])
    {
      assert data[..i + 1][..i] == data[..i];
      var own := TagsOf(data[i]);
      var j := 0;
      while j < |own|
        invariant 0 <= j <= |own|
        invariant NoDuplicates(tags)
        invariant forall t :: t in tags <==> t in AllTags(data[..i]) + own[..j]
      {
        assert own[..j + 1] == own[..j] + [own[j]];
        if own[j] !in tags {
          AppendNoDuplicates(tags, own[j]);
          tags := tags + [own[j]];
        }
        j := j + 1;
      }
      assert own[..j] == own;
      i := i + 1;
    }
    assert data[..i] == data;
    availableTags := SortStrings(tags);
    SortStringsStrict(tags);
    assert forall t :: t in availableTags <==> t in multiset(tags);
  }

  /** `getSkillLevelLabel`: the three known priorities get their display
      names, any other value is shown as it is. */
  function SkillLevelLabel(priority: string): (shown: string)
    ensures priority == "HIGH" ==> shown == "Expert"
    ensures priority == "MEDIUM" ==> shown == "Intermediate"
    ensures priority == "LOW" ==> shown == "Beginner"
  {
    match priority
    case "HIGH" => "Expert"
    case "MEDIUM" => "Intermediate"
    case "LOW" => "Beginner"
    case _ => priority
  }

  /** The label differs from the priority exactly for the three known
      priorities, and the three known priorities get three different labels. */
  lemma SkillLevelLabelChanges(priority: string)
    ensures SkillLevelLabel(priority) != priority <==> priority in {"HIGH", "MEDIUM", "LOW"}
    ensures priority !in {"HIGH", "MEDIUM", "LOW"} ==> SkillLevelLabel(priority) == priority
  {
  }
}
