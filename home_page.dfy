/** The selection state of the home page, src/app/page.tsx. The component's
    React state is a class whose fields the handlers assign; a state setter
    takes effect at once. The chapter-data service is a function from the
    requested ids to its answer, and the PDF is produced by
    `PdfService.GeneratePdf`. */
module HomePage {
  import opened QuranTypes
  import opened CallPlans
  import opened PdfSink
  import PdfService

  const FetchFailedDefault: string := "Failed to fetch Quran data"
  const GenerateFailedDefault: string := "Failed to generate PDF"
  const DefaultCover: CoverOptions := CoverOptions("Holy Quran", "Selected Chapters", true, true)

  /** The answer of `QuranApiService.fetchMultipleSurahs`. */
  datatype FetchResult = Fetched(data: seq<QuranData>) | FetchFailed(thrown: Thrown)

  /** `err instanceof Error ? err.message : fallback`. */
  function ErrorText(t: Thrown, fallback: string): (r: string)
    ensures t.ErrorObject? ==> r == t.message
    ensures t.NonErrorValue? ==> r == fallback
  {
    match t
    case ErrorObject(m) => m
    case NonErrorValue => fallback
  }

  /* ---- The toggle updater: pure. ---- */

  predicate Sorted(s: seq<int>) {
    forall k, l :: 0 <= k < l < |s| ==> s[k] <= s[l]
  }

  /** Sorted and free of duplicates. */
  predicate StrictlySorted(s: seq<int>) {
    forall k, l :: 0 <= k < l < |s| ==> s[k] < s[l]
  }

  /** `prev.filter((id) => id !== x)`. */
  function RemoveAll(s: seq<int>, x: int): (r: seq<int>)
    ensures x !in r
    ensures multiset(r) == multiset(s)[x := 0]
  {
    if s == [] then []
    else
      assert s == [s[0]] + s[1..];
      if s[0] == x then RemoveAll(s[1..], x) else [s[0]] + RemoveAll(s[1..], x)
  }

  /** The filter works piecewise, so it keeps the survivors in their order. */
  lemma {:induction false} RemoveAllAppend(a: seq<int>, b: seq<int>, x: int)
    ensures RemoveAll(a + b, x) == RemoveAll(a, x) + RemoveAll(b, x)
  {
    if a != [] {
      assert (a + b)[1..] == a[1..] + b;
      RemoveAllAppend(a[1..], b, x);
    } else {
      assert a + b == b;
    }
  }

  /** A list without `x` passes the filter unchanged. */
  lemma {:induction false} RemoveAbsent(s: seq<int>, x: int)
    requires x !in s
    ensures RemoveAll(s, x) == s
  {
    if s != [] {
      RemoveAbsent(s[1..], x);
    }
  }

  /** No element of `s` is below `b`. */
  predicate LowerBound(b: int, s: seq<int>) {
    forall i :: 0 <= i < |s| ==> b <= s[i]
  }

  /** A lower bound of a list's elements bounds any list with the same
      elements and possibly one more that is above it. */
  lemma LowerBoundMultiset(b: int, t: seq<int>, r: seq<int>, extra: multiset<int>)
    requires LowerBound(b, t) && multiset(r) == multiset(t) + extra
    requires forall y | y in extra :: b <= y
    ensures LowerBound(b, r)
  {
    forall i | 0 <= i < |r|
      ensures b <= r[i]
    {
      assert r[i] in multiset(r);
      if r[i] !in extra {
        assert r[i] in multiset(t);
        assert r[i] in t;
      }
    }
  }

  /** A lower bound of a list's elements bounds every list whose elements
      are among them. */
  lemma LowerBoundSub(b: int, t: seq<int>, r: seq<int>)
    requires LowerBound(b, t) && multiset(r) <= multiset(t)
    ensures LowerBound(b, r)
  {
    forall i | 0 <= i < |r|
      ensures b <= r[i]
    {
      assert r[i] in multiset(r);
      assert r[i] in multiset(t);
      assert r[i] in t;
    }
  }

  /** A bounded head in front of a sorted list gives a sorted list. */
  lemma SortedCons(x: int, s: seq<int>)
    requires Sorted(s) && LowerBound(x, s)
    ensures Sorted([x] + s)
  {
  }

  lemma StrictCons(x: int, s: seq<int>)
    requires StrictlySorted(s) && LowerBound(x + 1, s)
    ensures StrictlySorted([x] + s)
  {
  }

  /** Removing elements keeps a sorted list without duplicates one. */
  lemma {:induction false} RemoveAllSorted(s: seq<int>, x: int)
    requires StrictlySorted(s)
    ensures StrictlySorted(RemoveAll(s, x))
  {
    if s != [] {
      RemoveAllSorted(s[1..], x);
      var rest := RemoveAll(s[1..], x);
      if s[0] != x {
        assert LowerBound(s[0] + 1, s[1..]);
        assert multiset(rest) <= multiset(s[1..]);
        LowerBoundSub(s[0] + 1, s[1..], rest);
        StrictCons(s[0], rest);
      }
    }
  }

  /** Puts `x` into a sorted list. */
  function InsertSorted(x: int, s: seq<int>): (r: seq<int>)
    ensures multiset(r) == multiset(s) + multiset{x}
  {
    if s == [] then [x]
    else if x <= s[0] then [x] + s
    else
      assert s == [s[0]] + s[1..];
      [s[0]] + InsertSorted(x, s[1..])
  }

  lemma {:induction false} InsertKeepsSorted(x: int, s: seq<int>)
    requires Sorted(s)
    ensures Sorted(InsertSorted(x, s))
  {
    if s != [] && x > s[0] {
      InsertKeepsSorted(x, s[1..]);
      var rest := InsertSorted(x, s[1..]);
      assert LowerBound(s[0], s[1..]);
      LowerBoundMultiset(s[0], s[1..], rest, multiset{x});
      SortedCons(s[0], rest);
    }
  }

  /** `.sort((a, b) => a - b)` on a list of numbers. */
  function SortAscending(s: seq<int>): (r: seq<int>)
    ensures Sorted(r)
    ensures multiset(r) == multiset(s)
  {
    if s == [] then []
    else
      var init := SortAscending(s[..|s| - 1]);
      assert s == s[..|s| - 1] + [s[|s| - 1]];
      InsertKeepsSorted(s[|s| - 1], init);
      InsertSorted(s[|s| - 1], init)
  }

  /** Two sorted lists with the same elements are equal; so any correct
      sort gives the same result. */
  lemma {:induction false} SortedUnique(a: seq<int>, b: seq<int>)
    requires Sorted(a) && Sorted(b) && multiset(a) == multiset(b)
    ensures a == b
  {
    if a != [] {
      assert |b| == |a| by { assert |multiset(b)| == |multiset(a)|; }
      assert a[0] in multiset(b);
      assert a[0] in b;
      assert b[0] in multiset(a);
      assert b[0] in a;
      assert a == [a[0]] + a[1..];
      assert b == [b[0]] + b[1..];
      assert a[0] == b[0];
      assert multiset(a) == multiset{a[0]} + multiset(a[1..]);
      assert multiset(b) == multiset{b[0]} + multiset(b[1..]);
      assert multiset(a[1..]) == multiset(a) - multiset{a[0]};
      assert multiset(b[1..]) == multiset(b) - multiset{b[0]};
      SortedUnique(a[1..], b[1..]);
    } else {
      assert |multiset(b)| == 0;
    }
  }

  /** The updater of `handleSurahSelection`. */
  function Toggled(prev: seq<int>, id: int): seq<int> {
    if id in prev then RemoveAll(prev, id) else SortAscending(prev + [id])
  }

  /** Toggling a selected id takes out every occurrence of it and nothing
      else. */
  lemma ToggleOff(prev: seq<int>, id: int)
    requires id in prev
    ensures id !in Toggled(prev, id)
    ensures multiset(Toggled(prev, id)) == multiset(prev)[id := 0]
  {
  }

  /** Toggling an unselected id adds it and sorts the list. */
  lemma ToggleOn(prev: seq<int>, id: int)
    requires id !in prev
    ensures id in Toggled(prev, id)
    ensures Sorted(Toggled(prev, id))
    ensures multiset(Toggled(prev, id)) == multiset(prev) + multiset{id}
  {
    assert id in multiset(Toggled(prev, id));
  }

  /** A value found at two positions occurs at least twice. */
  lemma TwoOccurrences(r: seq<int>, k: int, l: int)
    requires 0 <= k < l < |r| && r[k] == r[l]
    ensures multiset(r)[r[k]] >= 2
  {
    assert r == r[..l] + r[l..];
    assert r[k] in r[..l];
    assert r[l..][0] == r[l];
    assert r[k] in r[l..];
  }

  /** A sorted list in which nothing occurs twice has no duplicates. */
  lemma SortedOnceStrict(r: seq<int>)
    requires Sorted(r) && forall y :: multiset(r)[y] <= 1
    ensures StrictlySorted(r)
  {
    forall k, l | 0 <= k < l < |r|
      ensures r[k] < r[l]
    {
      if r[k] == r[l] {
        TwoOccurrences(r, k, l);
      }
    }
  }

  /** A sorted list without duplicates stays one. */
  lemma ToggleKeepsStrict(prev: seq<int>, id: int)
    requires StrictlySorted(prev)
    ensures StrictlySorted(Toggled(prev, id))
  {
    if id in prev {
      RemoveAllSorted(prev, id);
    } else {
      var r := Toggled(prev, id);
      forall y
        ensures multiset(r)[y] <= 1
      {
        StrictCount(prev, y);
      }
      SortedOnceStrict(r);
    }
  }

  /** In a list without duplicates every element occurs once. */
  lemma {:induction false} StrictCount(s: seq<int>, x: int)
    requires StrictlySorted(s)
    ensures multiset(s)[x] <= 1
  {
    if s != [] {
      assert s == [s[0]] + s[1..];
      StrictCount(s[1..], x);
      if x == s[0] {
        assert x !in s[1..];
      }
    }
  }

  /** Toggling the same id twice gives back a sorted list without
      duplicates. */
  lemma ToggleTwice(prev: seq<int>, id: int)
    requires StrictlySorted(prev)
    ensures Toggled(Toggled(prev, id), id) == prev
  {
    var once := Toggled(prev, id);
    ToggleKeepsStrict(prev, id);
    var twice := Toggled(once, id);
    ToggleKeepsStrict(once, id);
    if id in prev {
      StrictCount(prev, id);
      assert multiset(twice) == multiset(prev);
    } else {
      assert id in multiset(once);
      assert multiset(twice) == multiset(prev);
    }
    SortedUnique(twice, prev);
  }

  /* ---- The component state and its handlers. ---- */

  datatype HomeState = HomeState(
    selectedSurahs: seq<int>,
    quranDataList: seq<QuranData>,
    loading: bool,
    previewLoading: bool,
    generateLoading: bool,
    error: Option<string>,
    showPreview: bool,
    coverOptions: CoverOptions)

  /** The ids of the chapter list, in its order. */
  function Ids(surahList: seq<SurahEntry>): (r: seq<int>)
    ensures |r| == |surahList|
    ensures forall i :: 0 <= i < |r| ==> r[i] == surahList[i].id
  {
    seq(|surahList|, i requires 0 <= i < |surahList| => surahList[i].id)
  }

  /** `fetchQuranData`: the answer or the failure's message is kept, and
      `loading` ends false either way. */
  function AfterFetch(s: HomeState, answer: FetchResult): HomeState {
    match answer
    case Fetched(data) => s.(quranDataList := data, loading := false, error := None)
    case FetchFailed(t) => s.(loading := false, error := Some(ErrorText(t, FetchFailedDefault)))
  }

  /** `handlePreviewPDF`. */
  function Preview(s: HomeState, fetcher: seq<int> -> FetchResult): HomeState {
    if |s.selectedSurahs| == 0 then s.(error := Some(PdfService.NoSelectionMessage))
    else AfterFetch(s.(error := None), fetcher(s.selectedSurahs)).(showPreview := true, previewLoading := false)
  }

  /** Generate fetches again when nothing is cached or the cache's length
      differs from the selection's. */
  predicate NeedsRefetch(cached: seq<QuranData>, selected: seq<int>) {
    |cached| == 0 || |cached| != |selected|
  }

  /** What generating did besides changing state: the ids it asked the
      data service for, and the calls made on the PDF generator. */
  datatype GenerateOutcome = GenerateOutcome(requested: Option<seq<int>>, document: Option<Run<Call>>)

  /** `handleGeneratePDF`. */
  function Generate(s: HomeState, fetcher: seq<int> -> FetchResult, surahList: seq<SurahEntry>,
                    failures: map<nat, Thrown>): (HomeState, GenerateOutcome)
  {
    if |s.selectedSurahs| == 0 then
      (s.(error := Some(PdfService.NoSelectionMessage)), GenerateOutcome(None, None))
    else if NeedsRefetch(s.quranDataList, s.selectedSurahs) then
      match fetcher(s.selectedSurahs)
      case FetchFailed(t) =>
        (s.(generateLoading := false, error := Some(ErrorText(t, GenerateFailedDefault))),
         GenerateOutcome(Some(s.selectedSurahs), None))
      case Fetched(data) =>
        var doc := PdfService.PdfRun(s.selectedSurahs, data, s.coverOptions, surahList, failures);
        (s.(quranDataList := data, generateLoading := false, error := DocumentError(doc)),
         GenerateOutcome(Some(s.selectedSurahs), Some(doc)))
    else
      var doc := PdfService.PdfRun(s.selectedSurahs, s.quranDataList, s.coverOptions, surahList, failures);
      (s.(generateLoading := false, error := DocumentError(doc)), GenerateOutcome(None, Some(doc)))
  }

  /** The error a generation run leaves behind. */
  function DocumentError(doc: Run<Call>): (r: Option<string>)
    ensures r.None? <==> doc.thrown.None?
  {
    if doc.thrown.Some? then Some(ErrorText(doc.thrown.value, GenerateFailedDefault)) else None
  }

  /** With nothing selected, preview only sets the error. */
  lemma PreviewGuard(s: HomeState, fetcher: seq<int> -> FetchResult)
    requires |s.selectedSurahs| == 0
    ensures Preview(s, fetcher) == s.(error := Some("Please select at least one surah"))
  {
  }

  /** The preview opens even when its fetch failed, showing the fetch's
      error, and neither loading flag stays set. */
  lemma PreviewAfterFailure(s: HomeState, fetcher: seq<int> -> FetchResult)
    requires |s.selectedSurahs| > 0 && fetcher(s.selectedSurahs).FetchFailed?
    ensures var p := Preview(s, fetcher);
      && p.showPreview && !p.loading && !p.previewLoading
      && p.error == Some(ErrorText(fetcher(s.selectedSurahs).thrown, "Failed to fetch Quran data"))
      && p.quranDataList == s.quranDataList
  {
  }

  /** With nothing selected, generate only sets the error: nothing is
      fetched and no document is made. */
  lemma GenerateGuard(s: HomeState, fetcher: seq<int> -> FetchResult, surahList: seq<SurahEntry>,
                      failures: map<nat, Thrown>)
    requires |s.selectedSurahs| == 0
    ensures Generate(s, fetcher, surahList, failures)
      == (s.(error := Some("Please select at least one surah")), GenerateOutcome(None, None))
  {
  }

  /** Generate asks the data service for the selection exactly when the
      cache is empty or of another length. */
  lemma RefetchIff(s: HomeState, fetcher: seq<int> -> FetchResult, surahList: seq<SurahEntry>,
                   failures: map<nat, Thrown>)
    requires |s.selectedSurahs| > 0
    ensures var out := Generate(s, fetcher, surahList, failures).1;
      && (out.requested.Some? <==> (|s.quranDataList| == 0 || |s.quranDataList| != |s.selectedSurahs|))
      && (out.requested.Some? ==> out.requested.value == s.selectedSurahs)
  {
  }

  /** A usable cache is what the document is made from. */
  lemma GenerateUsesCache(s: HomeState, fetcher: seq<int> -> FetchResult, surahList: seq<SurahEntry>,
                          failures: map<nat, Thrown>)
    requires |s.selectedSurahs| > 0 && |s.quranDataList| == |s.selectedSurahs|
    ensures Generate(s, fetcher, surahList, failures).1.document
      == Some(PdfService.PdfRun(s.selectedSurahs, s.quranDataList, s.coverOptions, surahList, failures))
  {
  }

  /** Generate leaves `generateLoading` false, and reports an error exactly
      when the fetch or the document failed. */
  lemma GenerateSettles(s: HomeState, fetcher: seq<int> -> FetchResult, surahList: seq<SurahEntry>,
                        failures: map<nat, Thrown>)
    requires |s.selectedSurahs| > 0
    ensures var (t, out) := Generate(s, fetcher, surahList, failures);
      && !t.generateLoading
      && (t.error.None? <==> out.document.Some? && out.document.value.thrown.None?)
  {
  }

  class Home {
    var selectedSurahs: seq<int>
    var quranDataList: seq<QuranData>
    var loading: bool
    var previewLoading: bool
    var generateLoading: bool
    var error: Option<string>
    var showPreview: bool
    var coverOptions: CoverOptions

    function State(): HomeState
      reads this
    {
      HomeState(selectedSurahs, quranDataList, loading, previewLoading, generateLoading, error, showPreview, coverOptions)
    }

    /** The initial state: chapter 1 selected, nothing loaded. */
    constructor ()
      ensures State() == HomeState([1], [], false, false, false, None, false, DefaultCover)
    {
      selectedSurahs := [1];
      quranDataList := [];
      loading := false;
      previewLoading := false;
      generateLoading := false;
      error := None;
      showPreview := false;
      coverOptions := DefaultCover;
    }

    method HandleSurahSelection(id: int)
      modifies this
      ensures State() == old(State()).(selectedSurahs := Toggled(old(selectedSurahs), id))
    {
      selectedSurahs := Toggled(selectedSurahs, id);
    }

    method HandleSelectAll(surahList: seq<SurahEntry>)
      modifies this
      ensures State() == old(State()).(selectedSurahs := Ids(surahList))
    {
      selectedSurahs := Ids(surahList);
    }

    method HandleClearAll()
      modifies this
      ensures State() == old(State()).(selectedSurahs := [])
    {
      selectedSurahs := [];
    }

    method FetchQuranData(surahIds: seq<int>, fetcher: seq<int> -> FetchResult)
      modifies this
      ensures State() == AfterFetch(old(State()), fetcher(surahIds))
    {
      loading := true;
      error := None;
      var answer := fetcher(surahIds);
      if answer.Fetched? {
        quranDataList := answer.data;
      } else {
        error := Some(ErrorText(answer.thrown, FetchFailedDefault));
      }
      loading := false;
    }

    method HandlePreviewPdf(fetcher: seq<int> -> FetchResult)
      modifies this
      ensures State() == Preview(old(State()), fetcher)
    {
      if |selectedSurahs| == 0 {
        error := Some(PdfService.NoSelectionMessage);
        return;
      }
      previewLoading := true;
      error := None;
      FetchQuranData(selectedSurahs, fetcher);
      showPreview := true;
      previewLoading := false;
    }

    method HandleGeneratePdf(fetcher: seq<int> -> FetchResult, surahList: seq<SurahEntry>, failures: map<nat, Thrown>)
      returns (out: GenerateOutcome)
      modifies this
      ensures (State(), out) == Generate(old(State()), fetcher, surahList, failures)
    {
      if |selectedSurahs| == 0 {
        error := Some(PdfService.NoSelectionMessage);
        return GenerateOutcome(None, None);
      }
      generateLoading := true;
      error := None;
      var dataToUse := quranDataList;
      var requested: Option<seq<int>> := None;
      if |dataToUse| == 0 || |dataToUse| != |selectedSurahs| {
        requested := Some(selectedSurahs);
        var answer := fetcher(selectedSurahs);
        if answer.FetchFailed? {
          error := Some(ErrorText(answer.thrown, GenerateFailedDefault));
          generateLoading := false;
          return GenerateOutcome(requested, None);
        }
        dataToUse := answer.data;
        quranDataList := dataToUse;
      }
      var doc := PdfService.GeneratePdf(selectedSurahs, dataToUse, coverOptions, surahList, failures);
      if doc.thrown.Some? {
        error := Some(ErrorText(doc.thrown.value, GenerateFailedDefault));
      }
      generateLoading := false;
      out := GenerateOutcome(requested, Some(doc));
    }

    method ClosePreview()
      modifies this
      ensures State() == old(State()).(showPreview := false)
    {
      showPreview := false;
    }
  }
}
