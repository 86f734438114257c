/** The `GET` handler of src/app/api/surah/route.ts: it fetches a chapter's
    record, requests its verses 50 per page, checks every page answered,
    joins the pages, sorts the verses by number and returns a trimmed copy.
    The two remote services are given as functions from request URL to
    response; the page requests, made in parallel in the source, are
    answered in page order. */
module SurahRoute {
  import opened QuranTypes

  const PerPage: nat := 50
  const CacheControl: string := "public, s-maxage=3600, stale-while-revalidate=86400"
  const FetchFailed: string := "Failed to fetch Quran verses"

  datatype TranslatedName = TranslatedName(languageName: string, name: string)

  /** The chapter record as the remote service sends it. */
  datatype ApiChapter = ApiChapter(
    id: int,
    revelationPlace: string,
    revelationOrder: int,
    bismillahPre: bool,
    nameSimple: string,
    nameComplex: string,
    nameArabic: string,
    versesCount: int,
    pages: seq<int>,
    translatedName: TranslatedName)

  /** A verse as the remote service sends it, with any further fields it
      carries as name/value pairs. */
  datatype ApiVerse = ApiVerse(
    id: int,
    verseNumber: int,
    rukuNumber: int,
    sajdahNumber: Option<int>,
    textUthmani: Option<string>,
    translations: Option<seq<Translation>>,
    otherFields: seq<(string, string)>)

  datatype ChapterResponse = ChapterResponse(ok: bool, status: int, chapter: ApiChapter)
  datatype PageResponse = PageResponse(ok: bool, status: int, verses: seq<ApiVerse>)

  datatype Body = Data(chapter: Chapter, verses: seq<Verse>) | Failure(error: string, message: string)
  datatype Response = Response(status: int, body: Body, headers: seq<(string, string)>)

  /** `searchParams.get('surahId') || '1'`: a missing or empty parameter
      falls back to chapter 1. */
  function SurahIdOf(param: Option<string>): (r: string)
    ensures r != ""
    ensures param.None? || param.value == "" ==> r == "1"
    ensures param.Some? && param.value != "" ==> r == param.value
  {
    if param.Some? && param.value != "" then param.value else "1"
  }

  /** `Math.ceil(totalVerses / perPage)` on a whole number of verses. */
  function PageCount(versesCount: int): (n: int)
    ensures n * PerPage >= versesCount
    ensures (n - 1) * PerPage < versesCount
  {
    -((-versesCount) / PerPage)
  }

  function ChapterUrl(surahId: string): string {
    "https://api.quran.com/api/v4/chapters/" + surahId
  }

  function PageUrlPrefix(surahId: string): string {
    "https://api.quran.com/api/v4/verses/by_chapter/" + surahId + "?translations=20,163&fields=text_uthmani&page="
  }

  function VersesUrl(surahId: string, page: nat): string {
    PageUrlPrefix(surahId) + NatToDecimal(page) + "&per_page=50"
  }

  /** Different pages of a chapter are different requests. */
  lemma VersesUrlInjective(surahId: string, p: nat, q: nat)
    requires VersesUrl(surahId, p) == VersesUrl(surahId, q)
    ensures p == q
  {
    var pre := PageUrlPrefix(surahId);
    var dp := NatToDecimal(p);
    var dq := NatToDecimal(q);
    var u := VersesUrl(surahId, p);
    assert |dp| == |dq|;
    assert dp == u[|pre|..|pre| + |dp|];
    assert dq == u[|pre|..|pre| + |dq|];
    DecimalRoundTrip(p);
    DecimalRoundTrip(q);
  }

  /** The request loop: one URL per page, pages 1 to `totalPages` in
      order; none when `totalPages` is not positive. */
  method RequestPages(surahId: string, totalPages: int) returns (urls: seq<string>)
    ensures |urls| == if totalPages > 0 then totalPages else 0
    ensures forall i :: 0 <= i < |urls| ==> urls[i] == VersesUrl(surahId, i + 1)
  {
    urls := [];
    var page := 1;
    while page <= totalPages
      invariant 1 <= page <= (if totalPages > 0 then totalPages + 1 else 1)
      invariant |urls| == page - 1
      invariant forall i :: 0 <= i < |urls| ==> urls[i] == VersesUrl(surahId, i + 1)
    {
      urls := urls + [VersesUrl(surahId, page)];
      page := page + 1;
    }
  }

  /** The responses to a list of requests, in request order. */
  function Answers(urls: seq<string>, versesServer: string -> PageResponse): (r: seq<PageResponse>)
    ensures |r| == |urls|
    ensures forall i :: 0 <= i < |urls| ==> r[i] == versesServer(urls[i])
  {
    seq(|urls|, i requires 0 <= i < |urls| => versesServer(urls[i]))
  }

  /** The first response that is not ok, if any. */
  function FirstNotOk(responses: seq<PageResponse>): (r: Option<nat>)
    ensures r.None? <==> forall j :: 0 <= j < |responses| ==> responses[j].ok
    ensures r.Some? ==> r.value < |responses| && !responses[r.value].ok
    ensures r.Some? ==> forall j :: 0 <= j < r.value ==> responses[j].ok
  {
    if responses == [] then None
    else if !responses[0].ok then Some(0)
    else
      var rest := FirstNotOk(responses[1..]);
      assert forall j :: 1 <= j < |responses| ==> responses[j] == responses[1..][j - 1];
      if rest.None? then None else Some(rest.value + 1)
  }

  /** The check loop: it stops at the first failed page. */
  method CheckResponses(responses: seq<PageResponse>) returns (failed: Option<nat>)
    ensures failed == FirstNotOk(responses)
  {
    var i := 0;
    while i < |responses|
      invariant 0 <= i <= |responses|
      invariant forall j :: 0 <= j < i ==> responses[j].ok
    {
      if !responses[i].ok {
        return Some(i);
      }
      i := i + 1;
    }
    return None;
  }

  /** Every page's verses, pages in order. */
  function Combined(responses: seq<PageResponse>): seq<ApiVerse> {
    if responses == [] then []
    else Combined(responses[..|responses| - 1]) + responses[|responses| - 1].verses
  }

  /** Verse `k` of page `i` sits in the combined list right after the
      verses of the pages before it. */
  lemma {:induction false} CombinedAt(responses: seq<PageResponse>, i: nat, k: nat)
    requires i < |responses| && k < |responses[i].verses|
    ensures |Combined(responses[..i])| + k < |Combined(responses)|
    ensures Combined(responses)[|Combined(responses[..i])| + k] == responses[i].verses[k]
  {
    var n := |responses| - 1;
    var init := responses[..n];
    if i == n {
      assert init == responses[..i];
    } else {
      assert init[..i] == responses[..i];
      CombinedAt(init, i, k);
    }
  }

  /** The joining loop: `allVerses = [...allVerses, ...data.verses]` for each
      page in turn. */
  method CombinePages(responses: seq<PageResponse>) returns (all: seq<ApiVerse>)
    ensures all == Combined(responses)
  {
    all := [];
    var i := 0;
    while i < |responses|
      invariant 0 <= i <= |responses|
      invariant all == Combined(responses[..i])
    {
      assert responses[..i + 1][..i] == responses[..i];
      all := all + responses[i].verses;
      i := i + 1;
    }
    assert responses[..i] == responses;
  }

  predicate SortedByNumber(s: seq<ApiVerse>) {
    forall k, l :: 0 <= k < l < |s| ==> s[k].verseNumber <= s[l].verseNumber
  }

  /** The first `n` elements of `a` are in order of verse number. */
  predicate SortedPrefix(a: array<ApiVerse>, n: int)
    reads a
    requires 0 <= n <= a.Length
  {
    forall k, l :: 0 <= k < l < n ==> a[k].verseNumber <= a[l].verseNumber
  }

  /** Exchanges elements `j - 1` and `j`. */
  method SwapDown(a: array<ApiVerse>, j: int)
    requires 0 < j < a.Length
    modifies a
    ensures a[j - 1] == old(a[j]) && a[j] == old(a[j - 1])
    ensures forall k :: 0 <= k < a.Length && k != j - 1 && k != j ==> a[k] == old(a[k])
    ensures multiset(a[..]) == multiset(old(a[..]))
  {
    a[j - 1], a[j] := a[j], a[j - 1];
  }

  /** Moves element `i` down into the sorted prefix before it. */
  method InsertDown(a: array<ApiVerse>, i: int)
    requires 0 <= i < a.Length && SortedPrefix(a, i)
    modifies a
    ensures SortedPrefix(a, i + 1)
    ensures multiset(a[..]) == multiset(old(a[..]))
    ensures forall k :: i < k < a.Length ==> a[k] == old(a[k])
  {
    var j := i;
    while j > 0 && a[j - 1].verseNumber > a[j].verseNumber
      invariant 0 <= j <= i
      invariant forall k, l :: 0 <= k < l <= i && k != j && l != j ==> a[k].verseNumber <= a[l].verseNumber
      invariant forall l :: j < l <= i ==> a[j].verseNumber <= a[l].verseNumber
      invariant multiset(a[..]) == multiset(old(a[..]))
      invariant forall k :: i < k < a.Length ==> a[k] == old(a[k])
    {
      SwapDown(a, j);
      j := j - 1;
    }
  }

  /** `allVerses.sort((a, b) => a.verse_number - b.verse_number)`, in place. */
  method SortByVerseNumber(a: array<ApiVerse>)
    modifies a
    ensures SortedByNumber(a[..])
    ensures multiset(a[..]) == multiset(old(a[..]))
  {
    var i := 0;
    while i < a.Length
      invariant 0 <= i <= a.Length
      invariant SortedPrefix(a, i)
      invariant multiset(a[..]) == multiset(old(a[..]))
    {
      InsertDown(a, i);
      i := i + 1;
    }
  }

  /** `filteredChapter`: the five fields the client reads. */
  function ProjectChapter(c: ApiChapter): Chapter {
    Chapter(c.id, c.bismillahPre, c.nameSimple, c.nameArabic, c.versesCount)
  }

  /** `filteredVerses`' element: the six fields the client reads. */
  function ProjectVerse(v: ApiVerse): Verse {
    Verse(v.id, v.verseNumber, v.rukuNumber, v.sajdahNumber, v.textUthmani, v.translations)
  }

  function ProjectVerses(s: seq<ApiVerse>): (r: seq<Verse>)
    ensures |r| == |s|
    ensures forall i :: 0 <= i < |s| ==> r[i] == ProjectVerse(s[i])
  {
    seq(|s|, i requires 0 <= i < |s| => ProjectVerse(s[i]))
  }

  /** Two chapter records project alike exactly when they agree on the five
      kept fields. */
  lemma ChapterProjectionKeeps(c: ApiChapter, d: ApiChapter)
    ensures ProjectChapter(c) == ProjectChapter(d) <==>
      c.id == d.id && c.bismillahPre == d.bismillahPre && c.nameSimple == d.nameSimple
      && c.nameArabic == d.nameArabic && c.versesCount == d.versesCount
  {
  }

  /** Two verses project alike exactly when they agree on the six kept
      fields; the remaining fields are dropped. */
  lemma VerseProjectionKeeps(v: ApiVerse, w: ApiVerse)
    ensures ProjectVerse(v) == ProjectVerse(w) <==>
      v.id == w.id && v.verseNumber == w.verseNumber && v.rukuNumber == w.rukuNumber
      && v.sajdahNumber == w.sajdahNumber && v.textUthmani == w.textUthmani && v.translations == w.translations
  {
  }

  /** The projection keeps the order by verse number. */
  lemma ProjectVersesSorted(s: seq<ApiVerse>)
    requires SortedByNumber(s)
    ensures forall k, l :: 0 <= k < l < |s| ==> ProjectVerses(s)[k].verseNumber <= ProjectVerses(s)[l].verseNumber
  {
  }

  function ChapterError(status: int): string {
    "Chapter HTTP error! status: " + IntToDecimal(status)
  }

  function VersesError(page: int, status: int): string {
    "Verses HTTP error on page " + IntToDecimal(page) + "! status: " + IntToDecimal(status)
  }

  function ErrorResponse(message: string): Response {
    Response(500, Failure(FetchFailed, message), [])
  }

  const SuccessHeaders: seq<(string, string)> := [("Content-Type", "application/json"), ("Cache-Control", CacheControl)]

  /** The page requests `GET` makes once the chapter record has arrived. */
  function PageRequests(surahParam: Option<string>, chapterServer: string -> ChapterResponse): (r: seq<string>)
    ensures var c := chapterServer(ChapterUrl(SurahIdOf(surahParam))).chapter; var n := PageCount(c.versesCount);
      && |r| == (if n > 0 then n else 0)
      && forall i :: 0 <= i < |r| ==> r[i] == VersesUrl(SurahIdOf(surahParam), i + 1)
  {
    var id := SurahIdOf(surahParam);
    var n := PageCount(chapterServer(ChapterUrl(id)).chapter.versesCount);
    seq(if n > 0 then n else 0, i requires 0 <= i => VersesUrl(id, i + 1))
  }

  /** `GET`. A failed chapter request or a failed page gives a 500 with the
      message of the first failure; otherwise a 200 carrying the trimmed
      chapter and the trimmed verses, which are the joined pages sorted by
      verse number. */
  method Get(surahParam: Option<string>, chapterServer: string -> ChapterResponse, versesServer: string -> PageResponse)
    returns (resp: Response)
    ensures var c := chapterServer(ChapterUrl(SurahIdOf(surahParam)));
      !c.ok ==> resp == ErrorResponse(ChapterError(c.status))
    ensures var c := chapterServer(ChapterUrl(SurahIdOf(surahParam)));
      var answers := Answers(PageRequests(surahParam, chapterServer), versesServer);
      var failed := FirstNotOk(answers);
      c.ok && failed.Some? ==> resp == ErrorResponse(VersesError(failed.value + 1, answers[failed.value].status))
    ensures var c := chapterServer(ChapterUrl(SurahIdOf(surahParam)));
      var answers := Answers(PageRequests(surahParam, chapterServer), versesServer);
      c.ok && FirstNotOk(answers).None? ==>
        && resp.status == 200 && resp.headers == SuccessHeaders
        && resp.body.Data? && resp.body.chapter == ProjectChapter(c.chapter)
        && exists s :: SortedByNumber(s) && multiset(s) == multiset(Combined(answers)) && resp.body.verses == ProjectVerses(s)
  {
    var surahId := SurahIdOf(surahParam);
    var chapterRes := chapterServer(ChapterUrl(surahId));
    if !chapterRes.ok {
      return ErrorResponse(ChapterError(chapterRes.status));
    }
    var totalPages := PageCount(chapterRes.chapter.versesCount);
    var urls := RequestPages(surahId, totalPages);
    assert urls == PageRequests(surahParam, chapterServer);
    var responses := Answers(urls, versesServer);
    var failed := CheckResponses(responses);
    if failed.Some? {
      return ErrorResponse(VersesError(failed.value + 1, responses[failed.value].status));
    }
    var all := CombinePages(responses);
    var a := new ApiVerse[|all|](i requires 0 <= i < |all| => all[i]);
    assert a[..] == all;
    SortByVerseNumber(a);
    var sorted := a[..];
    resp := Response(200, Data(ProjectChapter(chapterRes.chapter), ProjectVerses(sorted)), SuccessHeaders);
    assert SortedByNumber(sorted) && multiset(sorted) == multiset(Combined(responses)) && resp.body.verses == ProjectVerses(sorted);
  }
}
