/** `SurahContentGenerator` (src/utils/surahContentGenerator.ts): the calls
    one chapter makes on the PDF generator. `SurahPlan` is the specification
    of those calls; the class's methods make them one by one. */
module SurahContent {
  import opened QuranTypes
  import opened SurahBlocks
  import opened CallPlans
  import opened PdfSink

  /** A verse is rendered with the main template and, if that throws, once
      more with the fallback template. */
  function VerseStep(v: Verse): Step<Call> {
    WithFallback(Render(VerseBlock(v), VerseSpacing), Render(FallbackBlock(v), VerseSpacing))
  }

  function HeaderPlan(q: QuranData): seq<Step<Call>> {
    [Plain(Render(HeaderBlock(q.chapter), HeaderSpacing))]
  }

  function BismillahPlan(q: QuranData): seq<Step<Call>> {
    if q.chapter.bismillahPre then [Plain(Render(Bismillah, HeaderSpacing))] else []
  }

  function VersesPlan(verses: seq<Verse>): (p: seq<Step<Call>>)
  {
    if verses == [] then [] else VersesPlan(verses[..|verses| - 1]) + [VerseStep(verses[|verses| - 1])]
  }

  lemma {:induction false} VersesPlanLength(verses: seq<Verse>)
    ensures |VersesPlan(verses)| == |verses|
  {
    if verses != [] {
      VersesPlanLength(verses[..|verses| - 1]);
    }
  }

  /** Step i of the verses plan is verse i's step. */
  lemma {:induction false} VersesPlanAt(verses: seq<Verse>, i: nat)
    requires i < |verses|
    ensures |VersesPlan(verses)| == |verses|
    ensures VersesPlan(verses)[i] == VerseStep(verses[i])
  {
    var init := verses[..|verses| - 1];
    VersesPlanLength(verses);
    VersesPlanLength(init);
    if i < |init| {
      VersesPlanAt(init, i);
      assert init[i] == verses[i];
    }
  }

  /** The plan of a prefix of the verses is a prefix of the plan. */
  lemma {:induction false} VersesPlanPrefix(verses: seq<Verse>, n: nat)
    requires n <= |verses|
    ensures exists rest :: VersesPlan(verses) == VersesPlan(verses[..n]) + rest
  {
    if n < |verses| {
      var init := verses[..|verses| - 1];
      VersesPlanPrefix(init, n);
      assert init[..n] == verses[..n];
      var rest :| VersesPlan(init) == VersesPlan(init[..n]) + rest;
      assert VersesPlan(verses) == VersesPlan(verses[..n]) + (rest + [VerseStep(verses[|verses| - 1])]);
    } else {
      assert verses[..n] == verses;
      assert VersesPlan(verses) == VersesPlan(verses[..n]) + [];
    }
  }

  /** One more verse extends the plan by that verse's step. */
  lemma VersesPlanSnoc(verses: seq<Verse>, i: nat)
    requires i < |verses|
    ensures VersesPlan(verses[..i + 1]) == VersesPlan(verses[..i]) + [VerseStep(verses[i])]
  {
    assert verses[..i + 1][..i] == verses[..i];
  }

  /** generateCompleteSurah: header, then the bismillah when the chapter has
      one, then every verse in the order of `verses`. */
  function SurahPlan(q: QuranData): seq<Step<Call>> {
    HeaderPlan(q) + BismillahPlan(q) + VersesPlan(q.verses)
  }

  /** The start of a chapter's calls: the header comes first, with spacing
      15; a bismillah block with spacing 15 follows exactly when
      `bismillah_pre` is set; then one step per verse. */
  lemma SurahPlanStart(q: QuranData)
    ensures var p := SurahPlan(q); var b := if q.chapter.bismillahPre then 1 else 0;
      && |p| == 1 + b + |q.verses|
      && p[0] == Plain(Render(SurahHeader(q.chapter.nameSimple, q.chapter.nameArabic, q.chapter.id, q.chapter.versesCount), 15))
      && (q.chapter.bismillahPre ==> p[1] == Plain(Render(Bismillah, 15)))
  {
    VersesPlanLength(q.verses);
  }

  /** Step 1 + b + i of a chapter's calls (b = 1 when there is a bismillah)
      renders verse i with the main template and, on failure, with the
      fallback template, both with spacing 10: verses keep their order. */
  lemma SurahPlanVerse(q: QuranData, i: nat)
    requires i < |q.verses|
    ensures var p := SurahPlan(q); var b := if q.chapter.bismillahPre then 1 else 0;
      && 1 + b + i < |p|
      && p[1 + b + i] == WithFallback(Render(VerseBlock(q.verses[i]), 10), Render(FallbackBlock(q.verses[i]), 10))
  {
    var b := if q.chapter.bismillahPre then 1 else 0;
    VersesPlanAt(q.verses, i);
    assert SurahPlan(q)[1 + b + i] == VersesPlan(q.verses)[i];
  }

  /** The bismillah block is rendered somewhere in a chapter exactly when
      `bismillah_pre` is set. */
  lemma SurahPlanBismillah(q: QuranData)
    ensures q.chapter.bismillahPre <==>
      exists i :: 0 <= i < |SurahPlan(q)| && SurahPlan(q)[i] == Plain(Render(Bismillah, 15))
  {
    var p := SurahPlan(q);
    SurahPlanStart(q);
    if !q.chapter.bismillahPre {
      forall i | 0 <= i < |p| ensures p[i] != Plain(Render(Bismillah, 15)) {
        if i > 0 {
          SurahPlanVerse(q, i - 1);
        }
      }
    }
  }

  /** A plan whose every call, main or fallback, renders a block. */
  predicate RendersOnly(plan: seq<Step<Call>>) {
    forall i :: 0 <= i < |plan| ==>
      plan[i].Main().Render? && (plan[i].WithFallback? ==> plan[i].fallback.Render?)
  }

  /** A chapter's calls never open a page, add a footer, draw a cover or save:
      all it does is render blocks. */
  lemma SurahPlanOnlyRenders(q: QuranData)
    ensures RendersOnly(SurahPlan(q))
  {
    var p := SurahPlan(q);
    var b := if q.chapter.bismillahPre then 1 else 0;
    SurahPlanStart(q);
    forall i | 1 + b <= i < |p|
      ensures p[i].Main().Render? && (p[i].WithFallback? ==> p[i].fallback.Render?)
    {
      SurahPlanVerse(q, i - 1 - b);
    }
  }

  /** Hence a chapter makes no call of any kind but a render. */
  lemma SurahPlanAvoids(q: QuranData, k: CallKind)
    requires k != RenderCall
    ensures Avoids(SurahPlan(q), k)
  {
    SurahPlanOnlyRenders(q);
  }

  class SurahContentGenerator {
    const sink: Sink

    constructor (sink: Sink)
      ensures this.sink == sink
    {
      this.sink := sink;
    }

    method GenerateSurahHeader(q: QuranData) returns (thrown: Option<Thrown>)
      modifies sink
      ensures Run(sink.trace, thrown) == Exec(HeaderPlan(q), Run(old(sink.trace), None), sink.failures)
    {
      thrown := sink.Perform(Render(HeaderBlock(q.chapter), HeaderSpacing));
    }

    method GenerateBismillah(q: QuranData) returns (thrown: Option<Thrown>)
      modifies sink
      ensures Run(sink.trace, thrown) == Exec(BismillahPlan(q), Run(old(sink.trace), None), sink.failures)
    {
      if !q.chapter.bismillahPre {
        return None;
      }
      thrown := sink.Perform(Render(Bismillah, HeaderSpacing));
    }

    /** The main render, and on its failure exactly one fallback render whose
        own failure propagates. */
    method GenerateVerse(v: Verse) returns (thrown: Option<Thrown>)
      modifies sink
      ensures Run(sink.trace, thrown) == Exec([VerseStep(v)], Run(old(sink.trace), None), sink.failures)
    {
      FallbackOnce(Render(VerseBlock(v), VerseSpacing), Render(FallbackBlock(v), VerseSpacing), Run(sink.trace, None), sink.failures);
      thrown := sink.RenderElement(VerseBlock(v), VerseSpacing);
      if thrown.Some? {
        thrown := sink.RenderElement(FallbackBlock(v), VerseSpacing);
      }
    }

    /** The loop of generateCompleteSurah over the verses, in order; the
        first verse whose fallback also throws ends it. */
    method GenerateVerses(verses: seq<Verse>) returns (thrown: Option<Thrown>)
      modifies sink
      ensures Run(sink.trace, thrown) == Exec(VersesPlan(verses), Run(old(sink.trace), None), sink.failures)
    {
      ghost var start := Run(sink.trace, None);
      thrown := None;
      var i := 0;
      assert verses[..0] == [];
      while i < |verses|
        invariant 0 <= i <= |verses|
        invariant Run(sink.trace, thrown) == Exec(VersesPlan(verses[..i]), start, sink.failures)
        invariant thrown.None?
      {
        ghost var before := Run(sink.trace, thrown);
        thrown := GenerateVerse(verses[i]);
        VersesPlanSnoc(verses, i);
        ExecAppend(VersesPlan(verses[..i]), [VerseStep(verses[i])], start, sink.failures);
        if thrown.Some? {
          VersesPlanPrefix(verses, i + 1);
          var rest :| VersesPlan(verses) == VersesPlan(verses[..i + 1]) + rest;
          ExecAppend(VersesPlan(verses[..i + 1]), rest, start, sink.failures);
          ExecAfterThrow(rest, Run(sink.trace, thrown), sink.failures);
          return;
        }
        i := i + 1;
      }
      assert verses[..i] == verses;
    }

    method GenerateCompleteSurah(q: QuranData) returns (thrown: Option<Thrown>)
      modifies sink
      ensures Run(sink.trace, thrown) == Exec(SurahPlan(q), Run(old(sink.trace), None), sink.failures)
    {
      ghost var start := Run(sink.trace, None);
      ExecAppend(HeaderPlan(q), BismillahPlan(q), start, sink.failures);
      ExecAppend(HeaderPlan(q) + BismillahPlan(q), VersesPlan(q.verses), start, sink.failures);
      thrown := GenerateSurahHeader(q);
      if thrown.Some? {
        ExecAfterThrow(BismillahPlan(q), Run(sink.trace, thrown), sink.failures);
        ExecAfterThrow(VersesPlan(q.verses), Run(sink.trace, thrown), sink.failures);
        return;
      }
      thrown := GenerateBismillah(q);
      if thrown.Some? {
        ExecAfterThrow(VersesPlan(q.verses), Run(sink.trace, thrown), sink.failures);
        return;
      }
      thrown := GenerateVerses(q.verses);
    }
  }
}
