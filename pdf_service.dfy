/** `QuranPDFService` (src/utils/quranPDFService.ts): the input checks, the
    order of calls that builds the document, and the output file name. The
    jsPDF document is created inside `generatePDF`, so every run starts with a
    fresh sink whose first call is number 0. */
module PdfService {
  import opened QuranTypes
  import opened CallPlans
  import opened PdfSink
  import opened SurahContent

  const NoSelectionMessage: string := "Please select at least one surah"
  const NoDataMessage: string := "Failed to load Quran data"

  /** `surahList.find(s => s.id === id)?.name`: the name of the first entry
      with that id. */
  function FindName(surahList: seq<SurahEntry>, id: int): (r: Option<string>)
    ensures r.None? <==> forall i :: 0 <= i < |surahList| ==> surahList[i].id != id
    ensures r.Some? ==>
      exists i :: 0 <= i < |surahList| && surahList[i].id == id && surahList[i].name == r.value &&
        (forall j :: 0 <= j < i ==> surahList[j].id != id)
  {
    if surahList == [] then None
    else if surahList[0].id == id then Some(surahList[0].name)
    else
      var r := FindName(surahList[1..], id);
      assert forall i :: 1 <= i < |surahList| ==> surahList[i] == surahList[1..][i - 1];
      r
  }

  /** generateFileName. A found but empty name is falsy, so it falls back to
      `Surah_<id>` like a missing one. */
  function FileName(selected: seq<int>, surahList: seq<SurahEntry>): string {
    if |selected| == 1 then
      var found := FindName(surahList, selected[0]);
      (if found.Some? && found.value != "" then found.value else "Surah_" + IntToDecimal(selected[0])) + ".pdf"
    else "Quran_Chapters_" + IntToDecimal(|selected|) + "_Selected.pdf"
  }

  /** A single selection is named after its list entry when that entry has a
      non-empty name, otherwise `Surah_<id>`; the name ends in ".pdf". */
  lemma FileNameSingle(selected: seq<int>, surahList: seq<SurahEntry>)
    requires |selected| == 1
    ensures var found := FindName(surahList, selected[0]);
      && (found.Some? && found.value != "" ==> FileName(selected, surahList) == found.value + ".pdf")
      && (found.None? || found.value == "" ==> FileName(selected, surahList) == "Surah_" + IntToDecimal(selected[0]) + ".pdf")
  {
  }

  /** Any other selection count is written into the name, and can be read
      back from it. */
  lemma FileNameCount(selected: seq<int>, surahList: seq<SurahEntry>)
    requires |selected| != 1
    ensures var name := FileName(selected, surahList); var digits := NatToDecimal(|selected|);
      && name == "Quran_Chapters_" + digits + "_Selected.pdf"
      && name[15..15 + |digits|] == digits
      && DecimalValue(name[15..15 + |digits|]) == |selected|
  {
    var digits := NatToDecimal(|selected|);
    var name := FileName(selected, surahList);
    assert name[15..15 + |digits|] == digits;
    DecimalRoundTrip(|selected|);
  }

  /** One chapter: a forced new page, then the chapter's content. */
  function ChapterSteps(q: QuranData): seq<Step<Call>> {
    [Plain(NewPage)] + SurahPlan(q)
  }

  /** Each chapter's steps, in the order of `quranDataList`. */
  function ChapterParts(list: seq<QuranData>): (r: seq<seq<Step<Call>>>)
    ensures |r| == |list|
    ensures forall i :: 0 <= i < |list| ==> r[i] == ChapterSteps(list[i])
  {
    seq(|list|, i requires 0 <= i < |list| => ChapterSteps(list[i]))
  }

  /** The loop over `quranDataList`. */
  function ChaptersPlan(list: seq<QuranData>): seq<Step<Call>> {
    Flatten(ChapterParts(list))
  }

  function TailPlan(fileName: string): seq<Step<Call>> {
    [Plain(Footer), Plain(Call.Save(fileName))]
  }

  /** The calls of generatePDF once its inputs pass the checks: the cover,
      every chapter, the footer, and saving under the derived name. */
  function DocumentPlan(selected: seq<int>, list: seq<QuranData>, options: CoverOptions, surahList: seq<SurahEntry>): seq<Step<Call>> {
    [Plain(Cover(selected, list, options))] + ChaptersPlan(list) + TailPlan(FileName(selected, surahList))
  }

  /** What generatePDF does: the two checks, in this order, throw before any
      document work; otherwise the document plan runs on a fresh generator. */
  function PdfRun(selected: seq<int>, list: seq<QuranData>, options: CoverOptions,
                  surahList: seq<SurahEntry>, failures: map<nat, Thrown>): Run<Call>
  {
    if |selected| == 0 then Run([], Some(ErrorObject(NoSelectionMessage)))
    else if |list| == 0 then Run([], Some(ErrorObject(NoDataMessage)))
    else Exec(DocumentPlan(selected, list, options, surahList), Run([], None), failures)
  }

  /** The chapters' calls hold no cover, footer or save. */
  lemma ChaptersPlanAvoids(list: seq<QuranData>, k: CallKind)
    requires k != RenderCall && k != NewPageCall
    ensures Avoids(ChaptersPlan(list), k)
  {
    var parts := ChapterParts(list);
    forall i | 0 <= i < |parts| ensures Avoids(parts[i], k) {
      SurahPlanAvoids(list[i], k);
      assert Avoids([Plain(NewPage)], k);
      AvoidsAppend([Plain(NewPage)], SurahPlan(list[i]), k);
    }
    FlattenAvoids(parts, k);
  }

  /** The run up to the end of the last chapter: the cover, then the
      chapters' calls. */
  function ChaptersRun(selected: seq<int>, list: seq<QuranData>, options: CoverOptions, failures: map<nat, Thrown>): Run<Call> {
    Exec(ChaptersPlan(list), Run([Cover(selected, list, options)], ThrownAt(failures, 0)), failures)
  }

  /** The run splits at the cover and at the end of the last chapter. */
  lemma DocumentSplit(selected: seq<int>, list: seq<QuranData>, options: CoverOptions,
                      surahList: seq<SurahEntry>, failures: map<nat, Thrown>)
    requires |selected| > 0 && |list| > 0
    ensures PdfRun(selected, list, options, surahList, failures) ==
      Exec(TailPlan(FileName(selected, surahList)), ChaptersRun(selected, list, options, failures), failures)
  {
    var cover := [Plain(Cover(selected, list, options))];
    var mid := ChaptersPlan(list);
    var tail := TailPlan(FileName(selected, surahList));
    assert DocumentPlan(selected, list, options, surahList) == cover + mid + tail;
    ExecAppend(cover + mid, tail, Run([], None), failures);
    ExecAppend(cover, mid, Run([], None), failures);
    CoverRun(selected, list, options, failures);
  }

  /** Before the footer, the cover is the first call and every later call
      opens a page or renders an element. */
  lemma ChaptersCalls(selected: seq<int>, list: seq<QuranData>, options: CoverOptions, failures: map<nat, Thrown>)
    ensures var b := ChaptersRun(selected, list, options, failures);
      && |b.calls| >= 1 && b.calls[0] == Cover(selected, list, options)
      && forall j :: 1 <= j < |b.calls| ==> b.calls[j].NewPage? || b.calls[j].Render?
  {
    var a := Run([Cover(selected, list, options)], ThrownAt(failures, 0));
    var b := ChaptersRun(selected, list, options, failures);
    ChaptersPlanAvoids(list, CoverCall);
    ChaptersPlanAvoids(list, FooterCall);
    ChaptersPlanAvoids(list, SaveCall);
    ExecAvoids(ChaptersPlan(list), a, failures, CoverCall);
    ExecAvoids(ChaptersPlan(list), a, failures, FooterCall);
    ExecAvoids(ChaptersPlan(list), a, failures, SaveCall);
    ExecExtends(ChaptersPlan(list), a, failures);
    assert b.calls[0] == b.calls[..1][0];
  }

  /** The last two calls: the footer after the last chapter, then the save,
      each only when everything before it succeeded. */
  lemma TailRun(b: Run<Call>, fileName: string, failures: map<nat, Thrown>)
    ensures var c := Exec(TailPlan(fileName), b, failures);
      && (b.thrown.Some? ==> c == b)
      && (b.thrown.None? && |b.calls| in failures ==> c == Run(b.calls + [Footer], Some(failures[|b.calls|])))
      && (b.thrown.None? && |b.calls| !in failures ==>
            c == Run(b.calls + [Footer] + [Call.Save(fileName)], ThrownAt(failures, |b.calls| + 1)))
  {
    var t := TailPlan(fileName);
    if b.thrown.None? {
      var b1 := Apply(b, Plain(Footer), failures);
      assert t[1..] == [Plain(Call.Save(fileName))];
      assert Exec(t, b, failures) == Exec([Plain(Call.Save(fileName))], b1, failures);
      ExecSingle(Plain(Call.Save(fileName)), b1, failures);
    }
  }

  /** The tail keeps the calls before it and adds at most the footer and
      then the save; it succeeds only when it adds both. */
  lemma TailShape(b: Run<Call>, fileName: string, failures: map<nat, Thrown>)
    ensures var c := Exec(TailPlan(fileName), b, failures); var n := |b.calls|;
      && n <= |c.calls| <= n + 2
      && (forall j :: 0 <= j < n ==> c.calls[j] == b.calls[j])
      && (n < |c.calls| ==> c.calls[n] == Footer)
      && (n + 1 < |c.calls| ==> c.calls[n + 1] == Call.Save(fileName))
      && (c.thrown.None? ==> b.thrown.None? && |c.calls| == n + 2)
  {
    TailRun(b, fileName, failures);
  }

  /** The cover is the first call and is never made again. */
  lemma CoverFirstOnce(selected: seq<int>, list: seq<QuranData>, options: CoverOptions,
                       surahList: seq<SurahEntry>, failures: map<nat, Thrown>)
    requires |selected| > 0 && |list| > 0
    ensures var r := PdfRun(selected, list, options, surahList, failures);
      && |r.calls| > 0 && r.calls[0] == Cover(selected, list, options)
      && forall j :: 1 <= j < |r.calls| ==> !r.calls[j].Cover?
  {
    DocumentSplit(selected, list, options, surahList, failures);
    ChaptersCalls(selected, list, options, failures);
    TailShape(ChaptersRun(selected, list, options, failures), FileName(selected, surahList), failures);
  }

  /** `save` is reached only as the very last call, right after the footer,
      and with the derived file name; on success it is always reached. */
  lemma SaveLast(selected: seq<int>, list: seq<QuranData>, options: CoverOptions,
                 surahList: seq<SurahEntry>, failures: map<nat, Thrown>)
    requires |selected| > 0 && |list| > 0
    ensures var r := PdfRun(selected, list, options, surahList, failures);
      && (forall j :: 0 <= j < |r.calls| && r.calls[j].Save? ==>
            (j == |r.calls| - 1 && j >= 2 && r.calls[j] == Call.Save(FileName(selected, surahList)) && r.calls[j - 1] == Footer))
      && (r.thrown.None? ==>
            (|r.calls| >= 3 && r.calls[|r.calls| - 1] == Call.Save(FileName(selected, surahList)) && r.calls[|r.calls| - 2] == Footer))
  {
    DocumentSplit(selected, list, options, surahList, failures);
    ChaptersCalls(selected, list, options, failures);
    TailShape(ChaptersRun(selected, list, options, failures), FileName(selected, surahList), failures);
  }

  /** The footer is made at most once, after every chapter call. */
  lemma FooterOnce(selected: seq<int>, list: seq<QuranData>, options: CoverOptions,
                   surahList: seq<SurahEntry>, failures: map<nat, Thrown>)
    requires |selected| > 0 && |list| > 0
    ensures var r := PdfRun(selected, list, options, surahList, failures);
      forall j, j' :: 0 <= j < |r.calls| && 0 <= j' < |r.calls| && r.calls[j].Footer? ==>
        ((r.calls[j'].Footer? ==> j == j') && (r.calls[j'].NewPage? || r.calls[j'].Render? ==> j' < j))
  {
    DocumentSplit(selected, list, options, surahList, failures);
    ChaptersCalls(selected, list, options, failures);
    TailShape(ChaptersRun(selected, list, options, failures), FileName(selected, surahList), failures);
  }

  /** Whatever a call throws during generation is what generatePDF throws,
      unchanged, and it is thrown by the last call made. */
  lemma ErrorRethrown(selected: seq<int>, list: seq<QuranData>, options: CoverOptions,
                      surahList: seq<SurahEntry>, failures: map<nat, Thrown>)
    requires |selected| > 0 && |list| > 0
    ensures var r := PdfRun(selected, list, options, surahList, failures);
      r.thrown.Some? ==> |r.calls| > 0 && |r.calls| - 1 in failures && r.thrown.value == failures[|r.calls| - 1]
  {
    ExecThrowsLastCall(DocumentPlan(selected, list, options, surahList), Run([], None), failures);
  }

  /** The cover call alone, on a fresh sink. */
  lemma CoverRun(selected: seq<int>, list: seq<QuranData>, options: CoverOptions, failures: map<nat, Thrown>)
    ensures Exec([Plain(Cover(selected, list, options))], Run([], None), failures) ==
      Run([Cover(selected, list, options)], ThrownAt(failures, 0))
  {
    ExecSingle(Plain(Cover(selected, list, options)), Run([], None), failures);
    assert [] + [Cover(selected, list, options)] == [Cover(selected, list, options)];
  }

  /** One more chapter: a new page, then that chapter's content. */
  lemma ChaptersNext(list: seq<QuranData>, acc: Run<Call>, failures: map<nat, Thrown>, i: nat)
    requires i < |list|
    ensures Exec(Flatten(ChapterParts(list)[..i + 1]), acc, failures) ==
      Exec(SurahPlan(list[i]), Exec([Plain(NewPage)], Exec(Flatten(ChapterParts(list)[..i]), acc, failures), failures), failures)
  {
    var parts := ChapterParts(list);
    FlattenSnoc(parts, i);
    ExecAppend(Flatten(parts[..i]), parts[i], acc, failures);
    ExecAppend([Plain(NewPage)], SurahPlan(list[i]), Exec(Flatten(parts[..i]), acc, failures), failures);
  }

  /** Once a chapter has thrown, the later chapters call nothing. */
  lemma ChaptersStop(list: seq<QuranData>, acc: Run<Call>, failures: map<nat, Thrown>, n: nat)
    requires n <= |list|
    requires Exec(Flatten(ChapterParts(list)[..n]), acc, failures).thrown.Some?
    ensures Exec(ChaptersPlan(list), acc, failures) == Exec(Flatten(ChapterParts(list)[..n]), acc, failures)
  {
    var parts := ChapterParts(list);
    FlattenPrefix(parts, n);
    var rest :| Flatten(parts) == Flatten(parts[..n]) + rest;
    ExecAppend(Flatten(parts[..n]), rest, acc, failures);
    ExecAfterThrow(rest, Exec(Flatten(parts[..n]), acc, failures), failures);
  }

  /** The loop of generatePDF over `quranDataList`: a new page, then the
      chapter's content, for each chapter until one throws. */
  method GenerateChapters(sink: Sink, content: SurahContentGenerator, list: seq<QuranData>) returns (thrown: Option<Thrown>)
    requires content.sink == sink
    modifies sink
    ensures Run(sink.trace, thrown) == Exec(ChaptersPlan(list), Run(old(sink.trace), None), sink.failures)
  {
    ghost var start := Run(sink.trace, None);
    assert ChapterParts(list)[..0] == [];
    var i := 0;
    while i < |list|
      invariant 0 <= i <= |list|
      invariant Run(sink.trace, None) == Exec(Flatten(ChapterParts(list)[..i]), start, sink.failures)
    {
      ChaptersNext(list, start, sink.failures, i);
      thrown := sink.AddNewPage();
      if thrown.Some? {
        ExecAfterThrow(SurahPlan(list[i]), Run(sink.trace, thrown), sink.failures);
      } else {
        thrown := content.GenerateCompleteSurah(list[i]);
      }
      if thrown.Some? {
        ChaptersStop(list, start, sink.failures, i + 1);
        return;
      }
      i := i + 1;
    }
    assert ChapterParts(list)[..i] == ChapterParts(list);
    return None;
  }

  /** generatePDF: the checks, then a fresh sink receives the cover, each
      chapter's new page and content, the footer and the save; the first
      failure is rethrown as it is. */
  method GeneratePdf(selected: seq<int>, list: seq<QuranData>, options: CoverOptions,
                     surahList: seq<SurahEntry>, failures: map<nat, Thrown>) returns (r: Run<Call>)
    ensures r == PdfRun(selected, list, options, surahList, failures)
  {
    if |selected| == 0 {
      return Run([], Some(ErrorObject(NoSelectionMessage)));
    }
    if |list| == 0 {
      return Run([], Some(ErrorObject(NoDataMessage)));
    }
    var sink := new Sink(failures);
    var content := new SurahContentGenerator(sink);
    var fileName := FileName(selected, surahList);
    DocumentSplit(selected, list, options, surahList, failures);
    var thrown := sink.GenerateCover(selected, list, options);
    CoverRun(selected, list, options, failures);
    if thrown.Some? {
      ExecAfterThrow(ChaptersPlan(list), Run(sink.trace, thrown), failures);
      ExecAfterThrow(TailPlan(fileName), Run(sink.trace, thrown), failures);
      return Run(sink.trace, thrown);
    }
    thrown := GenerateChapters(sink, content, list);
    if thrown.Some? {
      ExecAfterThrow(TailPlan(fileName), Run(sink.trace, thrown), failures);
      return Run(sink.trace, thrown);
    }
    assert TailPlan(fileName) == [Plain(Footer)] + [Plain(Call.Save(fileName))];
    ExecAppend([Plain(Footer)], [Plain(Call.Save(fileName))], Run(sink.trace, None), failures);
    thrown := sink.AddFooter();
    if thrown.Some? {
      ExecAfterThrow([Plain(Call.Save(fileName))], Run(sink.trace, thrown), failures);
      return Run(sink.trace, thrown);
    }
    thrown := sink.Save(fileName);
    return Run(sink.trace, thrown);
  }

  /** One chapter opens exactly one new page. */
  lemma ChapterNewPage(q: QuranData)
    ensures multiset(Mains(ChapterSteps(q)))[NewPage] == 1
  {
    MainsAppend([Plain(NewPage)], SurahPlan(q));
    var m := Mains(SurahPlan(q));
    SurahPlanAvoids(q, NewPageCall);
    assert NewPage !in m by {
      forall j | 0 <= j < |m| ensures m[j] != NewPage {
        assert KindOf(m[j]) != NewPageCall;
      }
    }
    assert Mains([Plain(NewPage)]) == [NewPage];
    assert multiset(Mains(ChapterSteps(q))) == multiset([NewPage]) + multiset(m);
  }

  /** The first `n` chapters open exactly `n` new pages. */
  lemma {:induction false} ChaptersNewPages(list: seq<QuranData>, n: nat)
    requires n <= |list|
    ensures multiset(Mains(Flatten(ChapterParts(list)[..n])))[NewPage] == n
  {
    if n > 0 {
      var parts := ChapterParts(list);
      var i := n - 1;
      var before := Mains(Flatten(parts[..i]));
      var step := Mains(parts[i]);
      ChaptersNewPages(list, i);
      FlattenSnoc(parts, i);
      MainsAppend(Flatten(parts[..i]), parts[i]);
      ChapterNewPage(list[i]);
      assert multiset(before + step) == multiset(before) + multiset(step);
    }
  }

  /** When no call throws, generatePDF succeeds after making every call of
      its plan: the cover, the chapters' calls, the footer and the save. */
  lemma WithoutFailures(selected: seq<int>, list: seq<QuranData>, options: CoverOptions, surahList: seq<SurahEntry>)
    requires |selected| > 0 && |list| > 0
    ensures var r := PdfRun(selected, list, options, surahList, map[]);
      && r.thrown.None?
      && r.calls == [Cover(selected, list, options)] + Mains(ChaptersPlan(list)) + [Footer, Call.Save(FileName(selected, surahList))]
  {
    var cover := [Plain(Cover(selected, list, options))];
    var mid := ChaptersPlan(list);
    var tail := TailPlan(FileName(selected, surahList));
    var plan := DocumentPlan(selected, list, options, surahList);
    assert plan == cover + mid + tail;
    ExecWithoutFailures(plan, Run([], None), map[]);
    assert [] + Mains(plan) == Mains(plan);
    MainsAppend(cover + mid, tail);
    MainsAppend(cover, mid);
    assert Mains(cover) == [Cover(selected, list, options)];
    assert Mains(tail) == [Footer, Call.Save(FileName(selected, surahList))];
  }

  /** When no call throws, exactly one new page is opened per chapter. */
  lemma NewPagePerChapter(selected: seq<int>, list: seq<QuranData>, options: CoverOptions, surahList: seq<SurahEntry>)
    requires |selected| > 0 && |list| > 0
    ensures multiset(PdfRun(selected, list, options, surahList, map[]).calls)[NewPage] == |list|
  {
    WithoutFailures(selected, list, options, surahList);
    var head := [Cover(selected, list, options)];
    var mid := Mains(ChaptersPlan(list));
    var tail := [Footer, Call.Save(FileName(selected, surahList))];
    ChaptersNewPages(list, |list|);
    assert ChapterParts(list)[..|list|] == ChapterParts(list);
    assert multiset(head + mid + tail) == multiset(head) + multiset(mid) + multiset(tail);
  }
}
