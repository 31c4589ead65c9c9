/** The project list page of the front end
    (CSpaceFrontEnd/my_app/src/pages/AllProjectsPage.js): a keyword search,
    a category filter and a tag filter applied one after the other, the
    button that clears them, and the category choices derived from the
    loaded projects. */
module AllProjects {
  import opened Wrappers
  import opened Seqs
  import opened Text

  /** A project as the page receives it; every optional-chained field may be missing. */
  datatype Project = Project(
    name: Option<string>,
    description: Option<string>,
    ownerFullName: Option<string>,
    category: Option<string>,
    tags: Option<seq<string>>)

  /** The three filter inputs of the page. */
  datatype PageFilters = PageFilters(searchQuery: string, categoryFilter: string, tagFilter: string)

  /** `value?.toLowerCase().includes(query)`: false when the value is missing. */
  predicate FieldHit(value: Option<string>, query: string) {
    value.Some? && Contains(Lower(value.value), query)
  }

  /** The keyword pass. The query is lower-cased but not trimmed: trimming
      only decides whether the pass runs. */
  predicate SearchHit(searchQuery: string, p: Project) {
    var query := Lower(searchQuery);
    FieldHit(p.name, query) || FieldHit(p.description, query) || FieldHit(p.ownerFullName, query)
  }

  /** The category pass: same category ignoring case; a missing category never matches. */
  predicate CategoryHit(categoryFilter: string, p: Project) {
    p.category.Some? && Lower(p.category.value) == Lower(categoryFilter)
  }

  /** `tags?.some(t => t.toLowerCase().includes(tag))`, scanning left to right. */
  predicate SomeTagContains(tags: seq<string>, tag: string) {
    tags != [] && (Contains(Lower(tags[0]), tag) || SomeTagContains(tags[1..], tag))
  }

  lemma {:induction false} SomeTagContainsExists(tags: seq<string>, tag: string)
    ensures SomeTagContains(tags, tag) <==> exists k :: 0 <= k < |tags| && Contains(Lower(tags[k]), tag)
  {
    if tags != [] {
      SomeTagContainsExists(tags[1..], tag);
      if exists k :: 0 <= k < |tags| && Contains(Lower(tags[k]), tag) {
        var k :| 0 <= k < |tags| && Contains(Lower(tags[k]), tag);
        if k > 0 {
          assert tags[1..][k - 1] == tags[k];
        }
      }
    }
  }

  /** The tag pass: some tag contains the lower-cased (untrimmed) filter. */
  predicate TagHit(tagFilter: string, p: Project) {
    p.tags.Some? && SomeTagContains(p.tags.value, Lower(tagFilter))
  }

  /** Each pass runs only when its input is set: the search and tag inputs
      when they are not blank, the category input when it is not empty. */
  predicate SearchOk(f: PageFilters, p: Project) {
    Trim(f.searchQuery) == "" || SearchHit(f.searchQuery, p)
  }

  predicate CategoryOk(f: PageFilters, p: Project) {
    f.categoryFilter == "" || CategoryHit(f.categoryFilter, p)
  }

  predicate TagOk(f: PageFilters, p: Project) {
    Trim(f.tagFilter) == "" || TagHit(f.tagFilter, p)
  }

  predicate Matches(f: PageFilters, p: Project) {
    SearchOk(f, p) && CategoryOk(f, p) && TagOk(f, p)
  }

  function Shown(f: PageFilters): Project -> bool {
    p => Matches(f, p)
  }

  /** The projects listed under `f`: those that match, in their original order. */
  function Visible(f: PageFilters, projects: seq<Project>): seq<Project> {
    Filter(projects, Shown(f))
  }

  /** The conjunction of the first `n` passes. */
  function UpTo(f: PageFilters, n: nat): Project -> bool {
    p => (n >= 1 ==> SearchOk(f, p)) && (n >= 2 ==> CategoryOk(f, p)) && (n >= 3 ==> TagOk(f, p))
  }

  function BySearch(f: PageFilters): Project -> bool {
    p => SearchHit(f.searchQuery, p)
  }

  function ByCategory(f: PageFilters): Project -> bool {
    p => CategoryHit(f.categoryFilter, p)
  }

  function ByTag(f: PageFilters): Project -> bool {
    p => TagHit(f.tagFilter, p)
  }

  lemma SearchPass(projects: seq<Project>, f: PageFilters)
    ensures Trim(f.searchQuery) != "" ==> Filter(Filter(projects, UpTo(f, 0)), BySearch(f)) == Filter(projects, UpTo(f, 1))
    ensures Trim(f.searchQuery) == "" ==> Filter(projects, UpTo(f, 0)) == Filter(projects, UpTo(f, 1))
  {
    if Trim(f.searchQuery) != "" {
      FilterThen(projects, UpTo(f, 0), BySearch(f), UpTo(f, 1));
    } else {
      FilterSame(projects, UpTo(f, 0), UpTo(f, 1));
    }
  }

  lemma CategoryPass(projects: seq<Project>, f: PageFilters)
    ensures f.categoryFilter != "" ==> Filter(Filter(projects, UpTo(f, 1)), ByCategory(f)) == Filter(projects, UpTo(f, 2))
    ensures f.categoryFilter == "" ==> Filter(projects, UpTo(f, 1)) == Filter(projects, UpTo(f, 2))
  {
    if f.categoryFilter != "" {
      FilterThen(projects, UpTo(f, 1), ByCategory(f), UpTo(f, 2));
    } else {
      FilterSame(projects, UpTo(f, 1), UpTo(f, 2));
    }
  }

  lemma TagPass(projects: seq<Project>, f: PageFilters)
    ensures Trim(f.tagFilter) != "" ==> Filter(Filter(projects, UpTo(f, 2)), ByTag(f)) == Filter(projects, UpTo(f, 3))
    ensures Trim(f.tagFilter) == "" ==> Filter(projects, UpTo(f, 2)) == Filter(projects, UpTo(f, 3))
    ensures Filter(projects, UpTo(f, 3)) == Filter(projects, Shown(f))
  {
    if Trim(f.tagFilter) != "" {
      FilterThen(projects, UpTo(f, 2), ByTag(f), UpTo(f, 3));
    } else {
      FilterSame(projects, UpTo(f, 2), UpTo(f, 3));
    }
    FilterSame(projects, UpTo(f, 3), Shown(f));
  }

  /** `applyFilters`: the three passes in turn, each only when its input is
      set; the result is exactly the matching projects in their original order. */
  method ApplyFilters(projects: seq<Project>, f: PageFilters) returns (filtered: seq<Project>)
    ensures filtered == Visible(f, projects)
  {
    filtered := projects;
    FilterKeepsAll(projects, UpTo(f, 0));

    SearchPass(projects, f);
    if Trim(f.searchQuery) != "" {
      filtered := Keep(filtered, BySearch(f));
    }

    CategoryPass(projects, f);
    if f.categoryFilter != "" {
      filtered := Keep(filtered, ByCategory(f));
    }

    TagPass(projects, f);
    if Trim(f.tagFilter) != "" {
      filtered := Keep(filtered, ByTag(f));
    }
  }

  /** Filtering keeps order and adds nothing. */
  lemma {:induction false} VisibleIsSubsequence(f: PageFilters, projects: seq<Project>)
    ensures IsSubsequence(Visible(f, projects), projects)
  {
    FilterIsSubsequence(projects, Shown(f));
  }

  /** A project of the list is shown iff it passes all three filters. */
  lemma {:induction false} VisibleMatches(f: PageFilters, projects: seq<Project>, p: Project)
    requires p in projects
    ensures p in Visible(f, projects) <==> Matches(f, p)
  {
    var i :| 0 <= i < |projects| && projects[i] == p;
    if Matches(f, p) {
      assert Shown(f)(projects[i]);
    }
  }

  /** A blank search (empty or white space only) changes nothing: the list is
      the one shown with an empty search box. */
  lemma {:induction false} BlankSearchIgnored(f: PageFilters, projects: seq<Project>)
    requires AllWhitespace(f.searchQuery)
    ensures Visible(f, projects) == Visible(f.(searchQuery := ""), projects)
  {
    TrimEmpty(f.searchQuery);
    FilterSame(projects, Shown(f), Shown(f.(searchQuery := "")));
  }

  /** With a search that is not blank, a project that passes the other two
      filters is listed iff its name, description or owner's full name
      contains the lower-cased query, compared in lower case. */
  lemma {:induction false} VisibleSearch(f: PageFilters, projects: seq<Project>, p: Project)
    requires !AllWhitespace(f.searchQuery) && p in projects
    requires CategoryOk(f, p) && TagOk(f, p)
    ensures p in Visible(f, projects) <==>
      FieldHit(p.name, Lower(f.searchQuery))
      || FieldHit(p.description, Lower(f.searchQuery))
      || FieldHit(p.ownerFullName, Lower(f.searchQuery))
  {
    TrimEmpty(f.searchQuery);
    VisibleMatches(f, projects, p);
  }

  /** A non-empty category filter lists only projects whose category equals
      it ignoring case, and lists every such project that passes the other two. */
  lemma {:induction false} VisibleCategory(f: PageFilters, projects: seq<Project>, p: Project)
    requires f.categoryFilter != "" && p in projects
    requires SearchOk(f, p) && TagOk(f, p)
    ensures p in Visible(f, projects) <==> p.category.Some? && Lower(p.category.value) == Lower(f.categoryFilter)
  {
    VisibleMatches(f, projects, p);
  }

  /** A tag filter that is not blank lists a project that passes the other
      two iff one of its tags contains the lower-cased filter, ignoring case. */
  lemma {:induction false} VisibleTag(f: PageFilters, projects: seq<Project>, p: Project)
    requires !AllWhitespace(f.tagFilter) && p in projects
    requires SearchOk(f, p) && CategoryOk(f, p)
    ensures p in Visible(f, projects) <==>
      p.tags.Some? && exists k :: 0 <= k < |p.tags.value| && Contains(Lower(p.tags.value[k]), Lower(f.tagFilter))
  {
    TrimEmpty(f.tagFilter);
    VisibleMatches(f, projects, p);
    if p.tags.Some? {
      SomeTagContainsExists(p.tags.value, Lower(f.tagFilter));
    }
  }

  /** `clearFilters`: the three inputs become empty. */
  function ClearFilters(): (f: PageFilters)
    ensures f.searchQuery == "" && f.categoryFilter == "" && f.tagFilter == ""
  {
    PageFilters("", "", "")
  }

  /** With the filters cleared every project is listed, unchanged. */
  lemma {:induction false} ClearFiltersShowsAll(projects: seq<Project>)
    ensures Visible(ClearFilters(), projects) == projects
  {
    assert Trim("") == "" by {
      TrimEmpty("");
    }
    FilterKeepsAll(projects, Shown(ClearFilters()));
  }

  /** The categories in project order, with missing and empty ones dropped
      (`map(p => p.category).filter(Boolean)`). */
  function PresentCategories(projects: seq<Project>): (cs: seq<string>)
    ensures forall c :: c in cs <==> c != "" && exists i :: 0 <= i < |projects| && projects[i].category == Some(c)
  {
    if projects == [] then []
    else
      var rest := PresentCategories(projects[1..]);
      assert forall i :: 1 <= i < |projects| ==> projects[i] == projects[1..][i - 1];
      var c := projects[0].category;
      if c.Some? && c.value != "" then [c.value] + rest else rest
  }

  /** The category choices: each present category once, kept where it first appears. */
  function Categories(projects: seq<Project>): (cs: seq<string>)
    ensures NoDuplicates(cs)
    ensures forall c :: c in cs <==> c != "" && exists i :: 0 <= i < |projects| && projects[i].category == Some(c)
  {
    Distinct(PresentCategories(projects))
  }

  /** Choices come in the order their first project comes. */
  lemma CategoriesInFirstAppearanceOrder(projects: seq<Project>, i: nat, j: nat)
    requires i < j < |Categories(projects)|
    ensures FirstIndex(PresentCategories(projects), Categories(projects)[i])
          < FirstIndex(PresentCategories(projects), Categories(projects)[j])
  {
    DistinctFromFirstAppearance(PresentCategories(projects), {}, i, j);
  }
}
