/** The home page's derived lists: the subjects, the units of the selected
    subject, the tags on offer, the filtered and sorted class list, and the page
    of it shown; and the filter state its handlers change. */
module HomeCatalog {
  import opened Wrappers
  import opened Seqs
  import opened Strings
  import opened Registry

  const ItemsPerPage: nat := 9

  // ---------------------------------------------------------------------------
  // Subjects.

  function SubjectOf(m: QuizMeta): string {
    m.subject
  }

  function UnitOf(m: QuizMeta): int {
    m.unit
  }

  function TagsOf(m: QuizMeta): seq<string> {
    m.tags.GetOr([])
  }

  /** `Array.from(new Set(metaList.map(m => m.subject)))`. */
  function Subjects(metas: seq<QuizMeta>): (r: seq<string>)
    ensures NoDup(r)
    ensures |metas| > 0 ==> |r| > 0 && r[0] == metas[0].subject
  {
    Dedup(Map(metas, SubjectOf))
  }

  /** The subjects are exactly those of some meta. */
  lemma SubjectsMember(metas: seq<QuizMeta>, s: string)
    ensures s in Subjects(metas) <==> exists i :: 0 <= i < |metas| && metas[i].subject == s
  {
    DedupMember(Map(metas, SubjectOf), s);
    MapMember(metas, SubjectOf, s);
  }

  /** Subjects are listed in the order of their first appearance. */
  lemma SubjectsInFirstAppearanceOrder(metas: seq<QuizMeta>, i: nat, j: nat)
    requires i < j < |Subjects(metas)|
    ensures IndexOf(Map(metas, SubjectOf), Subjects(metas)[i]) < IndexOf(Map(metas, SubjectOf), Subjects(metas)[j])
  {
    DedupFirstOccurrenceOrder(Map(metas, SubjectOf), i, j);
  }

  /** `subjects[0] ?? ""`: the subject of the first meta. */
  function InitialSubject(metas: seq<QuizMeta>): (r: string)
    ensures metas == [] ==> r == ""
    ensures metas != [] ==> r == metas[0].subject
  {
    var s := Subjects(metas);
    if s == [] then "" else s[0]
  }

  // ---------------------------------------------------------------------------
  // Units.

  /** The unit selection: a unit number, "all", or nothing. */
  datatype UnitSel = AllUnits | Unit(n: int) | NoUnit

  function SubjectIs(subject: string): QuizMeta -> bool {
    (m: QuizMeta) => m.subject == subject
  }

  predicate IntLe(a: int, b: int) {
    a <= b
  }

  lemma IntLeTotalPreorder()
    ensures TotalPreorder(IntLe)
  {
  }

  /** The distinct units of the subject, ascending. */
  function SubjectUnits(metas: seq<QuizMeta>, subject: string): (r: seq<int>)
    ensures forall i, j :: 0 <= i < j < |r| ==> r[i] < r[j]
  {
    var d := Dedup(Map(Filter(metas, SubjectIs(subject)), UnitOf));
    IntLeTotalPreorder();
    SortByNoDup(d, IntLe);
    SortBy(d, IntLe)
  }

  /** The units listed are exactly those of the subject's metas. */
  lemma SubjectUnitsMember(metas: seq<QuizMeta>, subject: string, u: int)
    ensures u in SubjectUnits(metas, subject) <==>
      exists i :: 0 <= i < |metas| && metas[i].subject == subject && metas[i].unit == u
  {
    var units := Map(Filter(metas, SubjectIs(subject)), UnitOf);
    IntLeTotalPreorder();
    SortByMember(Dedup(units), IntLe, u);
    DedupMember(units, u);
    FilterMapMember(metas, SubjectIs(subject), UnitOf, u);
  }

  function AsUnit(n: int): UnitSel {
    Unit(n)
  }

  /** `unitsForSubject`: "all" followed by the subject's units, ascending. */
  function UnitsForSubject(metas: seq<QuizMeta>, subject: string): (r: seq<UnitSel>)
    ensures |r| >= 1 && r[0] == AllUnits
    ensures forall i :: 1 <= i < |r| ==> r[i].Unit?
    ensures forall i, j :: 1 <= i < j < |r| ==> r[i].n < r[j].n
  {
    [AllUnits] + Map(SubjectUnits(metas, subject), AsUnit)
  }

  /** A unit is offered exactly when some meta of the subject has it. */
  lemma UnitsForSubjectMember(metas: seq<QuizMeta>, subject: string, u: int)
    ensures Unit(u) in UnitsForSubject(metas, subject) <==>
      exists i :: 0 <= i < |metas| && metas[i].subject == subject && metas[i].unit == u
  {
    var units := SubjectUnits(metas, subject);
    SubjectUnitsMember(metas, subject, u);
    MapMember(units, AsUnit, Unit(u));
    assert Unit(u) in UnitsForSubject(metas, subject) <==> Unit(u) in Map(units, AsUnit);
    assert u in units <==> exists i :: 0 <= i < |units| && units[i] == u;
  }

  // ---------------------------------------------------------------------------
  // Filters.

  /** The number of active filters: a non-blank search, a unit other than "all",
      a non-empty tag selection. */
  function ActiveFiltersCount(search: string, unit: UnitSel, tags: seq<string>): (n: nat)
    ensures n <= 3
    ensures n == 0 <==> Trim(search) == "" && !unit.Unit? && tags == []
    ensures n == 3 <==> Trim(search) != "" && unit.Unit? && tags != []
  {
    (if Trim(search) != "" then 1 else 0) + (if unit.Unit? then 1 else 0) + (if |tags| > 0 then 1 else 0)
  }

  /** `availableTags`: the distinct tags of the subject's metas, in string order. */
  function AvailableTags(metas: seq<QuizMeta>, subject: string): (r: seq<string>)
    ensures NoDup(r)
    ensures SortedBy(r, StrLe)
  {
    var d := Dedup(FlatMap(Filter(metas, SubjectIs(subject)), TagsOf));
    StrLeTotalPreorder();
    SortByNoDup(d, StrLe);
    SortBy(d, StrLe)
  }

  /** The tags offered are exactly the tags of the subject's metas. */
  lemma AvailableTagsMember(metas: seq<QuizMeta>, subject: string, t: string)
    ensures t in AvailableTags(metas, subject) <==>
      exists i :: 0 <= i < |metas| && metas[i].subject == subject && t in TagsOf(metas[i])
  {
    var tags := FlatMap(Filter(metas, SubjectIs(subject)), TagsOf);
    StrLeTotalPreorder();
    SortByMember(Dedup(tags), StrLe, t);
    DedupMember(tags, t);
    FilterFlatMapMember(metas, SubjectIs(subject), TagsOf, t);
  }

  /** The trimmed, lower-cased search text. */
  function Query(search: string): string {
    Lower(Trim(search))
  }

  /** The query occurs in the title, the description or the space-joined tags. */
  predicate MatchesQuery(m: QuizMeta, q: string) {
    || Contains(Lower(m.title), q)
    || Contains(Lower(m.description.GetOr("")), q)
    || Contains(Lower(Join(TagsOf(m), " ")), q)
  }

  /** `selectedTags.some(t => tags.includes(t))`. */
  predicate HasAnyTag(m: QuizMeta, selected: seq<string>) {
    exists i :: 0 <= i < |selected| && selected[i] in TagsOf(m)
  }

  /** The filter state of the page. */
  datatype Filters = Filters(subject: string, unit: UnitSel, search: string, tags: seq<string>)

  /** One meta passes all four filters. */
  predicate Matches(f: Filters, m: QuizMeta) {
    && m.subject == f.subject
    && (f.unit.Unit? ==> m.unit == f.unit.n)
    && (Query(f.search) != "" ==> MatchesQuery(m, Query(f.search)))
    && (f.tags != [] ==> HasAnyTag(m, f.tags))
  }

  function MatchesAll(f: Filters): QuizMeta -> bool {
    (m: QuizMeta) => Matches(f, m)
  }

  function UnitIs(n: int): QuizMeta -> bool {
    (m: QuizMeta) => m.unit == n
  }

  function QueryIn(q: string): QuizMeta -> bool {
    (m: QuizMeta) => MatchesQuery(m, q)
  }

  function AnyTagOf(selected: seq<string>): QuizMeta -> bool {
    (m: QuizMeta) => HasAnyTag(m, selected)
  }

  /** The filter pipeline before the sort, stage by stage. */
  function Staged(metas: seq<QuizMeta>, f: Filters): seq<QuizMeta> {
    var list := Filter(metas, SubjectIs(f.subject));
    var list := if f.unit.Unit? then Filter(list, UnitIs(f.unit.n)) else list;
    var q := Query(f.search);
    var list := if q != "" then Filter(list, QueryIn(q)) else list;
    if f.tags != [] then Filter(list, AnyTagOf(f.tags)) else list
  }

  /** The four stages keep exactly what one filter by all four conditions keeps,
      in the same order. */
  lemma StagedIsOneFilter(metas: seq<QuizMeta>, f: Filters)
    ensures Staged(metas, f) == Filter(metas, MatchesAll(f))
  {
    var q := Query(f.search);
    var p1 := SubjectIs(f.subject);
    var p2 := (m: QuizMeta) => p1(m) && (f.unit.Unit? ==> m.unit == f.unit.n);
    var p3 := (m: QuizMeta) => p2(m) && (q != "" ==> MatchesQuery(m, q));
    var l1 := Filter(metas, p1);
    var l2 := if f.unit.Unit? then Filter(l1, UnitIs(f.unit.n)) else l1;
    if f.unit.Unit? {
      FilterFilter(metas, p1, UnitIs(f.unit.n), p2);
    } else {
      FilterExt(metas, p1, p2);
    }
    assert l2 == Filter(metas, p2);
    var l3 := if q != "" then Filter(l2, QueryIn(q)) else l2;
    if q != "" {
      FilterFilter(metas, p2, QueryIn(q), p3);
    } else {
      FilterExt(metas, p2, p3);
    }
    assert l3 == Filter(metas, p3);
    if f.tags != [] {
      FilterFilter(metas, p3, AnyTagOf(f.tags), MatchesAll(f));
    } else {
      FilterExt(metas, p3, MatchesAll(f));
    }
  }

  /** `a.unit - b.unit`, then `a.classNo - b.classNo`. */
  predicate UnitClassLe(a: QuizMeta, b: QuizMeta) {
    a.unit < b.unit || (a.unit == b.unit && a.classNo <= b.classNo)
  }

  lemma UnitClassLeTotalPreorder()
    ensures TotalPreorder(UnitClassLe)
  {
  }

  /** `filtered`: the metas that pass the filters, sorted by unit, then class;
      the same metas, as often, as one filter by all four conditions keeps. */
  function Filtered(metas: seq<QuizMeta>, f: Filters): (r: seq<QuizMeta>)
    ensures multiset(r) == multiset(Filter(metas, MatchesAll(f)))
    ensures forall i, j :: 0 <= i < j < |r| ==>
      r[i].unit < r[j].unit || (r[i].unit == r[j].unit && r[i].classNo <= r[j].classNo)
  {
    UnitClassLeTotalPreorder();
    StagedIsOneFilter(metas, f);
    SortBy(Staged(metas, f), UnitClassLe)
  }

  /** A meta is listed exactly when it is in the list and passes the filters. */
  lemma FilteredMember(metas: seq<QuizMeta>, f: Filters, m: QuizMeta)
    ensures m in Filtered(metas, f) <==> m in metas && Matches(f, m)
  {
    var r := Filtered(metas, f);
    assert m in r <==> m in multiset(r);
    assert m in Filter(metas, MatchesAll(f)) <==> m in multiset(Filter(metas, MatchesAll(f)));
    FilterMember(metas, MatchesAll(f), m);
  }

  /** Each filter only narrows: every listed class has the selected subject, the
      selected unit unless "all", the query somewhere in its text, and one of
      the selected tags. */
  lemma FilteredNarrows(metas: seq<QuizMeta>, f: Filters, m: QuizMeta)
    requires m in Filtered(metas, f)
    ensures m in metas && m.subject == f.subject
    ensures f.unit.Unit? ==> m.unit == f.unit.n
    ensures Trim(f.search) != "" ==> MatchesQuery(m, Query(f.search))
    ensures f.tags != [] ==> exists i :: 0 <= i < |f.tags| && f.tags[i] in TagsOf(m)
  {
    FilteredMember(metas, f, m);
    assert |Query(f.search)| == |Trim(f.search)|;
  }

  /** A blank search and no unit or tag selection list the whole subject. */
  lemma NoFiltersListSubject(metas: seq<QuizMeta>, subject: string, search: string, unit: UnitSel)
    requires Trim(search) == "" && !unit.Unit?
    ensures multiset(Filtered(metas, Filters(subject, unit, search, []))) == multiset(Filter(metas, SubjectIs(subject)))
  {
    var f := Filters(subject, unit, search, []);
    assert |Query(search)| == 0;
    FilterExt(metas, MatchesAll(f), SubjectIs(subject));
  }

  // ---------------------------------------------------------------------------
  // Pages.

  /** `Math.max(1, Math.ceil(count / 9))`. */
  function TotalPages(count: nat): (r: nat)
    ensures r >= 1
    ensures count == 0 ==> r == 1
    ensures count > 0 ==> (r - 1) * ItemsPerPage < count <= r * ItemsPerPage
  {
    if count == 0 then 1 else (count + ItemsPerPage - 1) / ItemsPerPage
  }

  /** `Math.min(page, totalPages)`. */
  function CurrentPage(page: nat, totalPages: nat): (r: nat)
    ensures r <= totalPages && r <= page
    ensures r == page || r == totalPages
  {
    if page < totalPages then page else totalPages
  }

  /** `filtered.slice((currentPage - 1) * 9, (currentPage - 1) * 9 + 9)`. */
  function PageItems(list: seq<QuizMeta>, currentPage: nat): (r: seq<QuizMeta>)
    requires currentPage >= 1
    ensures |r| <= ItemsPerPage
    ensures (currentPage - 1) * ItemsPerPage <= |list| ==>
      r == list[(currentPage - 1) * ItemsPerPage..if currentPage * ItemsPerPage <= |list| then currentPage * ItemsPerPage else |list|]
    ensures (currentPage - 1) * ItemsPerPage >= |list| ==> r == []
    ensures forall i :: 0 <= i < |r| ==> r[i] in list
  {
    var start := (currentPage - 1) * ItemsPerPage;
    Slice(list, start, start + ItemsPerPage)
  }

  /** The pages split the list: element i sits on page i / 9 + 1 at position
      i % 9, and that page is one of the pages. */
  lemma PagesPartitionList(list: seq<QuizMeta>, i: nat)
    requires i < |list|
    ensures var p := i / ItemsPerPage + 1;
      p <= TotalPages(|list|) && i % ItemsPerPage < |PageItems(list, p)| && PageItems(list, p)[i % ItemsPerPage] == list[i]
  {
    var p := i / ItemsPerPage + 1;
    assert (p - 1) * ItemsPerPage + i % ItemsPerPage == i;
  }

  /** Every page up to the total has something on it when the list is not empty. */
  lemma NoEmptyPage(list: seq<QuizMeta>, p: nat)
    requires |list| > 0 && 1 <= p <= TotalPages(|list|)
    ensures PageItems(list, p) != []
  {
  }

  /** Everything on a page passes the filters. */
  lemma ShownFiltered(metas: seq<QuizMeta>, f: Filters, p: nat)
    requires p >= 1
    ensures forall i :: 0 <= i < |PageItems(Filtered(metas, f), p)| ==>
      PageItems(Filtered(metas, f), p)[i] in metas && Matches(f, PageItems(Filtered(metas, f), p)[i])
  {
    forall i | 0 <= i < |PageItems(Filtered(metas, f), p)|
      ensures PageItems(Filtered(metas, f), p)[i] in metas && Matches(f, PageItems(Filtered(metas, f), p)[i])
    {
      FilteredMember(metas, f, PageItems(Filtered(metas, f), p)[i]);
    }
  }

  // ---------------------------------------------------------------------------
  // Opening a class.

  /** `openQuiz` navigates to the class's slug, or to subject-unit-class. */
  function OpenSlug(m: QuizMeta): string {
    match m.slug
    case Some(s) => s
    case None => m.subject + "-" + IntToString(m.unit) + "-" + IntToString(m.classNo)
  }

  /** Opening a registered class loads its own file. */
  lemma OpenedClassLoads(c: Catalog, m: QuizMeta)
    requires WellFormed(c) && m in c.metas
    ensures LoadBySlug(c.json, OpenSlug(m)).Some?
    ensures LoadBySlug(c.json, OpenSlug(m)).value.meta.value.slug == m.slug
  {
  }

  // ---------------------------------------------------------------------------
  // The page's filter state.

  class HomeState {
    const metaList: seq<QuizMeta>
    var selectedSubject: string
    var selectedUnit: UnitSel
    var search: string
    var selectedTags: seq<string>
    var page: nat

    ghost predicate Valid()
      reads this
    {
      page >= 1
    }

    function CurrentFilters(): Filters
      reads this
    {
      Filters(selectedSubject, selectedUnit, search, selectedTags)
    }

    constructor(metaList: seq<QuizMeta>)
      ensures this.metaList == metaList && selectedSubject == InitialSubject(metaList)
      ensures selectedUnit == AllUnits && search == "" && selectedTags == [] && page == 1
      ensures Valid()
    {
      this.metaList := metaList;
      selectedSubject := InitialSubject(metaList);
      selectedUnit := AllUnits;
      search := "";
      selectedTags := [];
      page := 1;
    }

    /** A new subject clears the unit, the search and the tags. */
    method SubjectChange(subject: string)
      modifies this
      ensures selectedSubject == subject && selectedUnit == AllUnits && search == "" && selectedTags == []
      ensures page == 1 && Valid()
      ensures ActiveFiltersCount(search, selectedUnit, selectedTags) == 0
    {
      selectedSubject := subject;
      selectedUnit := AllUnits;
      search := "";
      selectedTags := [];
      page := 1;
    }

    method UnitChange(unit: UnitSel)
      modifies this
      ensures selectedUnit == unit && page == 1 && Valid()
      ensures selectedSubject == old(selectedSubject) && search == old(search) && selectedTags == old(selectedTags)
    {
      selectedUnit := unit;
      page := 1;
    }

    method SearchChange(value: string)
      modifies this
      ensures search == value && page == 1 && Valid()
      ensures selectedSubject == old(selectedSubject) && selectedUnit == old(selectedUnit) && selectedTags == old(selectedTags)
    {
      search := value;
      page := 1;
    }

    method TagsChange(tags: seq<string>)
      modifies this
      ensures selectedTags == tags && page == 1 && Valid()
      ensures selectedSubject == old(selectedSubject) && selectedUnit == old(selectedUnit) && search == old(search)
    {
      selectedTags := tags;
      page := 1;
    }

    method ClearFilters()
      modifies this
      ensures selectedUnit == AllUnits && search == "" && selectedTags == [] && page == 1 && Valid()
      ensures selectedSubject == old(selectedSubject)
    {
      selectedUnit := AllUnits;
      search := "";
      selectedTags := [];
      page := 1;
    }

    /** The pager reports a page in 1..total. */
    method PageChange(p: nat)
      requires p >= 1
      modifies this
      ensures page == p && Valid()
      ensures CurrentFilters() == old(CurrentFilters())
    {
      page := p;
    }

    /** The classes on the current page. */
    function Shown(): (r: seq<QuizMeta>)
      reads this
      requires Valid()
      ensures |r| <= ItemsPerPage
      ensures forall i :: 0 <= i < |r| ==> r[i] in metaList && Matches(CurrentFilters(), r[i])
    {
      var list := Filtered(metaList, CurrentFilters());
      var cur := CurrentPage(page, TotalPages(|list|));
      ShownFiltered(metaList, CurrentFilters(), cur);
      PageItems(list, cur)
    }
  }
}
