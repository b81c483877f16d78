/** The paging of the project list and of the survey list: the page shown, its first and last
    position counted from one, and for projects whether there are pages before and after. Surveys
    are shown most recently updated first. */
module IndexPages {
  import opened Js

  /** The first and last position shown, counted from one. */
  datatype Bounds = Bounds(startIndex: int, endIndex: int)

  function Min(a: int, b: int): int {
    if a <= b then a else b
  }

  /** `startIndex = min(totalCount, pageIndex + 1)`, `endIndex = min(pageIndex + pageSize, totalCount)`. */
  function BoundsOf(totalCount: int, pageIndex: int, pageSize: int): (b: Bounds)
    ensures b.startIndex <= totalCount && b.endIndex <= totalCount
    ensures 0 <= pageIndex < totalCount ==> b.startIndex == pageIndex + 1
  {
    Bounds(Min(totalCount, pageIndex + 1), Min(pageIndex + pageSize, totalCount))
  }

  /** The first `count` pages of `size` items each, one after the other. */
  function Pages<T>(items: seq<T>, size: nat, count: nat): seq<T> {
    if count == 0 then [] else Pages(items, size, count - 1) + Slice(items, (count - 1) * size, count * size)
  }

  /** Paging through the list from the first page shows every item once, in order: the first
      `count` pages are the list up to `count * size`. */
  lemma {:induction false} PagesCoverList<T>(items: seq<T>, size: nat, count: nat)
    ensures Pages(items, size, count) == items[..Min(count * size, |items|)]
  {
    if count > 0 {
      PagesCoverList(items, size, count - 1);
      var a, b := Min((count - 1) * size, |items|), Min(count * size, |items|);
      assert (count - 1) * size <= count * size;
      assert Slice(items, (count - 1) * size, count * size) == items[a..b];
      assert items[..a] + items[a..b] == items[..b];
    }
  }

  /** What the project list shows. */
  datatype ProjectListing<T> = ProjectListing(projects: Option<seq<T>>, bounds: Bounds, hasPreviousPage: bool,
                                              hasNextPage: bool, totalCount: int)

  /** `mapStateToProps` of the project list: every project counted, the current page sliced out. */
  function ProjectPage<T>(projects: Option<seq<T>>, pageIndex: int, pageSize: int): (r: ProjectListing<T>)
    ensures r.totalCount == if projects.Some? then |projects.value| else 0
    ensures r.projects.Some? <==> projects.Some?
  {
    var totalCount := if projects.Some? then |projects.value| else 0;
    var shown := if projects.Some? then Some(Slice(projects.value, pageIndex, pageIndex + pageSize)) else None;
    var bounds := BoundsOf(totalCount, pageIndex, pageSize);
    ProjectListing(shown, bounds, bounds.startIndex > 1, bounds.endIndex < totalCount, totalCount)
  }

  /** A page is the window `[pageIndex, pageIndex + pageSize)` of the projects, cut at the end; there
      is a previous page exactly when this is not the first and there is more than one project,
      and a next page exactly when a project comes after the window. On a page that is not past
      the end, the bounds count the projects shown. */
  lemma ProjectPageWindow<T>(projects: seq<T>, pageIndex: nat, pageSize: nat)
    ensures var r := ProjectPage(Some(projects), pageIndex, pageSize);
      && r.projects.value == projects[Min(pageIndex, |projects|)..Min(pageIndex + pageSize, |projects|)]
      && (r.hasPreviousPage <==> pageIndex > 0 && |projects| > 1)
      && (r.hasNextPage <==> pageIndex + pageSize < |projects|)
      && (pageIndex < |projects| ==> |r.projects.value| == r.bounds.endIndex - r.bounds.startIndex + 1)
  {
  }

  /** Without projects nothing is counted and there is no page before or after. */
  lemma NoProjects<T>(pageIndex: nat, pageSize: nat)
    ensures var r := ProjectPage<T>(None, pageIndex, pageSize);
      r.totalCount == 0 && r.projects.None? && !r.hasNextPage && r.bounds.endIndex <= 0
  {
  }

  /** A survey, with the time of its last update as the server formats it. */
  datatype Survey = Survey(id: int, updatedAt: string)

  /** `a` does not come after `b` in the order of UTF-16 code units. */
  predicate NotAfter(a: string, b: string) {
    a == [] || (b != [] && (a[0] < b[0] || (a[0] == b[0] && NotAfter(a[1..], b[1..]))))
  }

  lemma {:induction false} NotAfterTotal(a: string, b: string)
    ensures NotAfter(a, b) || NotAfter(b, a)
  {
    if a != [] && b != [] && a[0] == b[0] {
      NotAfterTotal(a[1..], b[1..]);
    }
  }

  lemma {:induction false} NotAfterTransitive(a: string, b: string, c: string)
    requires NotAfter(a, b) && NotAfter(b, c)
    ensures NotAfter(a, c)
  {
    if a != [] && b != [] && c != [] && a[0] == b[0] && b[0] == c[0] {
      NotAfterTransitive(a[1..], b[1..], c[1..]);
    }
  }

  /** Most recently updated first. */
  predicate Descending(s: seq<Survey>) {
    forall i, j :: 0 <= i < j < |s| ==> NotAfter(s[j].updatedAt, s[i].updatedAt)
  }

  /** A survey inserted after every survey updated no earlier than it. */
  function Insert(x: Survey, s: seq<Survey>): (r: seq<Survey>)
    ensures multiset(r) == multiset(s) + multiset{x} && |r| == |s| + 1
  {
    if s == [] then [x]
    else if NotAfter(x.updatedAt, s[0].updatedAt) then
      assert s == [s[0]] + s[1..];
      [s[0]] + Insert(x, s[1..])
    else [x] + s
  }

  /** The surveys after the first were updated no later than it. */
  lemma TailNotAfterHead(s: seq<Survey>)
    requires Descending(s) && s != []
    ensures forall y :: y in s[1..] ==> NotAfter(y.updatedAt, s[0].updatedAt)
  {
    forall y | y in s[1..]
      ensures NotAfter(y.updatedAt, s[0].updatedAt)
    {
      var m :| 0 <= m < |s| - 1 && s[1..][m] == y;
      assert s[m + 1] == y;
    }
  }

  lemma {:induction false} InsertElements(x: Survey, s: seq<Survey>)
    ensures forall y :: y in Insert(x, s) <==> y == x || y in s
  {
    if s != [] && NotAfter(x.updatedAt, s[0].updatedAt) {
      InsertElements(x, s[1..]);
      assert s == [s[0]] + s[1..];
    }
  }

  lemma {:induction false} InsertDescending(x: Survey, s: seq<Survey>)
    requires Descending(s)
    ensures Descending(Insert(x, s))
  {
    if s != [] {
      if NotAfter(x.updatedAt, s[0].updatedAt) {
        assert Descending(s[1..]);
        InsertDescending(x, s[1..]);
        var r := Insert(x, s[1..]);
        InsertElements(x, s[1..]);
        TailNotAfterHead(s);
        forall k | 0 <= k < |r|
          ensures NotAfter(r[k].updatedAt, s[0].updatedAt)
        {
          assert r[k] in r;
        }
      } else {
        NotAfterTotal(x.updatedAt, s[0].updatedAt);
        forall k | 0 < k < |s|
          ensures NotAfter(s[k].updatedAt, x.updatedAt)
        {
          NotAfterTransitive(s[k].updatedAt, s[0].updatedAt, x.updatedAt);
        }
      }
    }
  }

  /** The `sort` with `(x, y) => y.updatedAt.localeCompare(x.updatedAt)`: stable, so surveys updated
      at the same time keep their order. */
  function SortByUpdate(s: seq<Survey>): (r: seq<Survey>)
    ensures multiset(r) == multiset(s) && |r| == |s|
  {
    if s == [] then []
    else
      assert s == s[..|s| - 1] + [s[|s| - 1]];
      Insert(s[|s| - 1], SortByUpdate(s[..|s| - 1]))
  }

  /** The sorted surveys are the same surveys, most recently updated first. */
  lemma {:induction false} SortByUpdateDescending(s: seq<Survey>)
    ensures Descending(SortByUpdate(s))
  {
    if s != [] {
      SortByUpdateDescending(s[..|s| - 1]);
      InsertDescending(s[|s| - 1], SortByUpdate(s[..|s| - 1]));
    }
  }

  /** What the survey list shows. */
  datatype SurveyListing = SurveyListing(surveys: Option<seq<Survey>>, bounds: Bounds, totalCount: int)

  /** `mapStateToProps` of the survey list: every survey counted, then sorted, then the current page
      sliced out. */
  function SurveyPage(surveys: Option<seq<Survey>>, pageIndex: int, pageSize: int): (r: SurveyListing)
    ensures r.totalCount == if surveys.Some? then |surveys.value| else 0
    ensures r.surveys.Some? <==> surveys.Some?
  {
    var totalCount := if surveys.Some? then |surveys.value| else 0;
    var shown := if surveys.Some? then Some(Slice(SortByUpdate(surveys.value), pageIndex, pageIndex + pageSize)) else None;
    SurveyListing(shown, BoundsOf(totalCount, pageIndex, pageSize), totalCount)
  }

  /** The page shown is the window `[pageIndex, pageIndex + pageSize)` of the surveys most recently
      updated first: in that order, each one of the surveys, and as many as the bounds count when
      the page is not past the end. */
  lemma SurveyPageWindow(surveys: seq<Survey>, pageIndex: nat, pageSize: nat)
    ensures var r := SurveyPage(Some(surveys), pageIndex, pageSize);
      && r.surveys.value == SortByUpdate(surveys)[Min(pageIndex, |surveys|)..Min(pageIndex + pageSize, |surveys|)]
      && Descending(r.surveys.value)
      && multiset(r.surveys.value) <= multiset(surveys)
      && (pageIndex < |surveys| ==> |r.surveys.value| == r.bounds.endIndex - r.bounds.startIndex + 1)
  {
    var sorted := SortByUpdate(surveys);
    var a, b := Min(pageIndex, |surveys|), Min(pageIndex + pageSize, |surveys|);
    SortByUpdateDescending(surveys);
    WindowOf(sorted, a, b);
  }

  /** A window of a list sorted most recent first is sorted the same way and holds some of its
      surveys. */
  lemma WindowOf(sorted: seq<Survey>, a: nat, b: nat)
    requires a <= b <= |sorted| && Descending(sorted)
    ensures Descending(sorted[a..b]) && multiset(sorted[a..b]) <= multiset(sorted)
  {
    assert sorted == sorted[..a] + sorted[a..b] + sorted[b..];
    assert multiset(sorted) == multiset(sorted[..a]) + multiset(sorted[a..b]) + multiset(sorted[b..]);
  }
}
