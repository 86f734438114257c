/** The page-flow engine (`PDFGenerator`) and the cover generator are not part
    of this model. They are represented by an abstract sink that records every
    call made to it, in order, and that may throw on any call: the sink's k-th
    call (counting from 0) throws `failures[k]` when `k in failures`. */
module PdfSink {
  import opened QuranTypes
  import opened SurahBlocks
  import opened CallPlans

  /** The cover options of the cover generator. */
  datatype CoverOptions = CoverOptions(title: string, subtitle: string, includeDate: bool, includeStats: bool)

  datatype Call =
    | Cover(selected: seq<int>, chapters: seq<QuranData>, options: CoverOptions)
    | NewPage
    | Render(block: Block, spacing: int)
    | Footer
    | Save(fileName: string)

  datatype CallKind = CoverCall | NewPageCall | RenderCall | FooterCall | SaveCall

  function KindOf(c: Call): CallKind {
    match c
    case Cover(_, _, _) => CoverCall
    case NewPage => NewPageCall
    case Render(_, _) => RenderCall
    case Footer => FooterCall
    case Save(_) => SaveCall
  }

  /** No step of the plan, main or fallback, makes a call of kind `k`. */
  predicate Avoids(plan: seq<Step<Call>>, k: CallKind) {
    forall i :: 0 <= i < |plan| ==>
      KindOf(plan[i].Main()) != k && (plan[i].WithFallback? ==> KindOf(plan[i].fallback) != k)
  }

  lemma AvoidsAppend(p: seq<Step<Call>>, q: seq<Step<Call>>, k: CallKind)
    requires Avoids(p, k) && Avoids(q, k)
    ensures Avoids(p + q, k)
  {
    forall i | 0 <= i < |p + q|
      ensures KindOf((p + q)[i].Main()) != k && ((p + q)[i].WithFallback? ==> KindOf((p + q)[i].fallback) != k)
    {
      if i < |p| {
        assert (p + q)[i] == p[i];
      } else {
        assert (p + q)[i] == q[i - |p|];
      }
    }
  }

  lemma {:induction false} FlattenAvoids(parts: seq<seq<Step<Call>>>, k: CallKind)
    requires forall i :: 0 <= i < |parts| ==> Avoids(parts[i], k)
    ensures Avoids(Flatten(parts), k)
  {
    if parts != [] {
      FlattenAvoids(parts[..|parts| - 1], k);
      AvoidsAppend(Flatten(parts[..|parts| - 1]), parts[|parts| - 1], k);
    }
  }

  /** A plan that avoids a kind of call adds no call of that kind to the
      trace, whatever throws. */
  lemma ExecAvoids(plan: seq<Step<Call>>, acc: Run<Call>, failures: map<nat, Thrown>, k: CallKind)
    requires Avoids(plan, k)
    ensures var r := Exec(plan, acc, failures);
      forall j :: |acc.calls| <= j < |r.calls| ==> KindOf(r.calls[j]) != k
  {
    ExecCallsFromPlan(plan, acc, failures);
  }

  /** The sink standing in for the PDF generator: `trace` holds every call
      it has received, in order. */
  class Sink {
    var trace: seq<Call>
    const failures: map<nat, Thrown>

    constructor (failures: map<nat, Thrown>)
      ensures trace == [] && this.failures == failures
    {
      trace := [];
      this.failures := failures;
    }

    /** Receives one call: records it and throws what is scheduled for its
        position. */
    method Perform(c: Call) returns (thrown: Option<Thrown>)
      modifies this
      ensures Run(trace, thrown) == Exec([Plain(c)], Run(old(trace), None), failures)
      ensures trace == old(trace) + [c] && thrown == ThrownAt(failures, |old(trace)|)
    {
      assert [Plain(c)][1..] == [];
      thrown := ThrownAt(failures, |trace|);
      trace := trace + [c];
    }

    method GenerateCover(selected: seq<int>, chapters: seq<QuranData>, options: CoverOptions) returns (thrown: Option<Thrown>)
      modifies this
      ensures Run(trace, thrown) == Exec([Plain(Cover(selected, chapters, options))], Run(old(trace), None), failures)
    {
      thrown := Perform(Cover(selected, chapters, options));
    }

    method AddNewPage() returns (thrown: Option<Thrown>)
      modifies this
      ensures Run(trace, thrown) == Exec([Plain(NewPage)], Run(old(trace), None), failures)
    {
      thrown := Perform(NewPage);
    }

    method RenderElement(block: Block, spacing: int) returns (thrown: Option<Thrown>)
      modifies this
      ensures trace == old(trace) + [Render(block, spacing)]
      ensures thrown == ThrownAt(failures, |old(trace)|)
    {
      thrown := Perform(Render(block, spacing));
    }

    method AddFooter() returns (thrown: Option<Thrown>)
      modifies this
      ensures Run(trace, thrown) == Exec([Plain(Footer)], Run(old(trace), None), failures)
    {
      thrown := Perform(Footer);
    }

    method Save(fileName: string) returns (thrown: Option<Thrown>)
      modifies this
      ensures Run(trace, thrown) == Exec([Plain(Call.Save(fileName))], Run(old(trace), None), failures)
    {
      thrown := Perform(Call.Save(fileName));
    }
  }
}
