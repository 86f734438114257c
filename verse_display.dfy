/** `cleanupTranslationText` (src/components/VerseDisplay.tsx): seven global
    regular-expression replacements applied one after the other. Each pattern
    is an opening tag, a run of characters of one class (possibly none), and
    a closing tag. No class contains '<' and every closing tag starts with
    '<', so whether the run is greedy or lazy, a match can only end its run
    at the first character outside the class; the model takes that maximal
    run (see `RegexMatchUnique`). */
module VerseDisplay {
  import opened QuranTypes

  /** The character class between a pattern's two tags. */
  datatype Gap = NoGap | Digits | NotAngle | Space

  /** JavaScript's `\s`: the white-space and line-terminator characters of
      ECMAScript, with U+FEFF. */
  predicate IsJsSpace(c: char) {
    var n := c as int;
    || n == 0x09 || n == 0x0A || n == 0x0B || n == 0x0C || n == 0x0D || n == 0x20
    || n == 0xA0 || n == 0x1680 || (0x2000 <= n <= 0x200A) || n == 0x2028 || n == 0x2029
    || n == 0x202F || n == 0x205F || n == 0x3000 || n == 0xFEFF
  }

  predicate InGap(g: Gap, c: char) {
    match g
    case NoGap => false
    case Digits => '0' <= c <= '9'
    case NotAngle => c != '<'
    case Space => IsJsSpace(c)
  }

  /** `\d+` needs one digit; `*` and `*?` accept none. */
  function MinLen(g: Gap): nat {
    if g == Digits then 1 else 0
  }

  /** `open`, a run of `gap` characters (the captured group), `close`;
      replaced by `before`, the group when `keep`, and `after`. */
  datatype Rule = Rule(open: string, gap: Gap, close: string, before: string, keep: bool, after: string)

  predicate WellFormed(r: Rule) {
    |r.open| > 0 && r.open[0] == '<' && |r.close| > 0 && r.close[0] == '<' && !InGap(r.gap, '<')
  }

  /** `/<sup>(\d+)<sup>/g` to `<sup>$1</sup>` */
  const FixDigits: Rule := Rule("<sup>", Digits, "<sup>", "<sup>", true, "</sup>")
  /** `/<sup>([^<]*?)<sup>/g` to `<sup>$1</sup>` */
  const FixNested: Rule := Rule("<sup>", NotAngle, "<sup>", "<sup>", true, "</sup>")
  /** `/<\/sup><\/sup>/g` to `</sup>` */
  const DoubleClose: Rule := Rule("</sup>", NoGap, "</sup>", "</sup>", false, "")
  /** `/<sup>\s*<sup>/g` to `<sup>` */
  const SpacedOpen: Rule := Rule("<sup>", Space, "<sup>", "<sup>", false, "")
  /** `/<\/sup>\s*<\/sup>/g` to `</sup>` */
  const SpacedClose: Rule := Rule("</sup>", Space, "</sup>", "</sup>", false, "")
  /** `/<sup><sup>/g` to `<sup>` */
  const DoubleOpen: Rule := Rule("<sup>", NoGap, "<sup>", "<sup>", false, "")
  /** `/<\/sup><sup>/g` to `</sup><sup>` */
  const CloseOpen: Rule := Rule("</sup>", NoGap, "<sup>", "</sup><sup>", false, "")

  predicate StartsAt(s: string, i: nat, p: string) {
    i + |p| <= |s| && s[i..i + |p|] == p
  }

  /** The end of the longest run of `g` characters starting at `i`. */
  function SpanEnd(s: string, i: nat, g: Gap): (e: nat)
    requires i <= |s|
    ensures i <= e <= |s|
    ensures forall k :: i <= k < e ==> InGap(g, s[k])
    ensures e == |s| || !InGap(g, s[e])
    decreases |s| - i
  {
    if i < |s| && InGap(g, s[i]) then SpanEnd(s, i + 1, g) else i
  }

  /** Where the match of `r` that starts at `i` ends, if there is one. */
  function MatchEnd(r: Rule, s: string, i: nat): (m: Option<nat>)
    requires i <= |s|
    ensures m.Some? ==> StartsAt(s, i, r.open) && i + |r.open| + MinLen(r.gap) + |r.close| <= m.value <= |s|
    ensures m.Some? ==> StartsAt(s, m.value - |r.close|, r.close)
    ensures m.Some? ==> forall k :: i + |r.open| <= k < m.value - |r.close| ==> InGap(r.gap, s[k])
  {
    if StartsAt(s, i, r.open) then
      var g := i + |r.open|;
      var e := SpanEnd(s, g, r.gap);
      if e - g >= MinLen(r.gap) && StartsAt(s, e, r.close) then Some(e + |r.close|) else None
    else None
  }

  /** Any way of matching the pattern at `i`, with a run of any admissible
      length, is the match the model finds: the regex's choice of run length
      does not matter. */
  lemma RegexMatchUnique(r: Rule, s: string, i: nat, k: nat)
    requires WellFormed(r)
    requires StartsAt(s, i, r.open) && i + |r.open| + MinLen(r.gap) <= k <= |s|
    requires forall m :: i + |r.open| <= m < k ==> InGap(r.gap, s[m])
    requires StartsAt(s, k, r.close)
    ensures MatchEnd(r, s, i) == Some(k + |r.close|)
  {
    var e := SpanEnd(s, i + |r.open|, r.gap);
    assert s[k] == s[k..k + |r.close|][0] == '<';
  }

  function Captured(r: Rule, s: string, i: nat): string
    requires StartsAt(s, i, r.open)
  {
    s[i + |r.open|..SpanEnd(s, i + |r.open|, r.gap)]
  }

  function Replacement(r: Rule, group: string): string {
    r.before + (if r.keep then group else "") + r.after
  }

  /** A global replace from position `i` on: a match is replaced and the
      scan resumes after it; otherwise the character is kept. */
  function ReplaceFrom(r: Rule, s: string, i: nat): string
    requires WellFormed(r) && i <= |s|
    decreases |s| - i
  {
    if i == |s| then ""
    else match MatchEnd(r, s, i)
      case Some(e) => Replacement(r, Captured(r, s, i)) + ReplaceFrom(r, s, e)
      case None => [s[i]] + ReplaceFrom(r, s, i + 1)
  }

  function ReplaceAll(r: Rule, s: string): string
    requires WellFormed(r)
  {
    ReplaceFrom(r, s, 0)
  }

  /** The chain of `cleanupTranslationText`, in source order. */
  function Cleanup(s: string): string {
    var s1 := ReplaceAll(FixDigits, s);
    var s2 := ReplaceAll(FixNested, s1);
    var s3 := ReplaceAll(DoubleClose, s2);
    var s4 := ReplaceAll(SpacedOpen, s3);
    var s5 := ReplaceAll(SpacedClose, s4);
    var s6 := ReplaceAll(DoubleOpen, s5);
    ReplaceAll(CloseOpen, s6)
  }

  /** A value reaching `cleanupTranslationText`: a string, or any other
      JavaScript value. */
  datatype JsValue = JsString(text: string) | JsOther(shown: string)

  /** A non-string value is returned as it is. */
  function CleanupValue(v: JsValue): (r: JsValue)
    ensures v.JsOther? ==> r == v
    ensures r.JsString? <==> v.JsString?
  {
    match v
    case JsString(t) => JsString(Cleanup(t))
    case JsOther(_) => v
  }

  /** What a translation paragraph shows: its text, or the default when the
      text is missing or empty, cleaned. */
  function DisplayedTranslation(t: Translation): JsValue {
    CleanupValue(JsString(TextOrDefault(t)))
  }

  /** Where nothing matches from `i` on, the rest is kept as it is. */
  lemma {:induction false} NoMatchFrom(r: Rule, s: string, i: nat)
    requires WellFormed(r) && i <= |s|
    requires forall j :: i <= j < |s| ==> MatchEnd(r, s, j).None?
    ensures ReplaceFrom(r, s, i) == s[i..]
    decreases |s| - i
  {
    if i < |s| {
      NoMatchFrom(r, s, i + 1);
      assert s[i..] == [s[i]] + s[i + 1..];
    }
  }

  /** A match starts at a '<'. */
  lemma MatchStartsAtAngle(r: Rule, s: string, j: nat)
    requires WellFormed(r) && j < |s|
    requires MatchEnd(r, s, j).Some?
    ensures s[j] == '<'
  {
    assert s[j] == s[j..j + |r.open|][0];
  }

  /** Text without '<' is never rewritten by a rule. */
  lemma NoAngleFixed(r: Rule, s: string)
    requires WellFormed(r) && '<' !in s
    ensures ReplaceAll(r, s) == s
  {
    forall j | 0 <= j < |s| ensures MatchEnd(r, s, j).None? {
      if MatchEnd(r, s, j).Some? {
        MatchStartsAtAngle(r, s, j);
      }
    }
    NoMatchFrom(r, s, 0);
  }

  /** Text shorter than a rule's two tags is never rewritten by it. */
  lemma ShortFixed(r: Rule, s: string)
    requires WellFormed(r) && |s| < |r.open| + |r.close|
    ensures ReplaceAll(r, s) == s
  {
    NoMatchFrom(r, s, 0);
  }

  /** Text containing no '<' comes out of the whole chain unchanged. */
  lemma NoAngleUnchanged(s: string)
    requires '<' !in s
    ensures Cleanup(s) == s
  {
    NoAngleFixed(FixDigits, s);
    NoAngleFixed(FixNested, s);
    NoAngleFixed(DoubleClose, s);
    NoAngleFixed(SpacedOpen, s);
    NoAngleFixed(SpacedClose, s);
    NoAngleFixed(DoubleOpen, s);
    NoAngleFixed(CloseOpen, s);
  }

  /** The last rule writes back exactly what it matched. */
  lemma {:induction false} CloseOpenFrom(s: string, i: nat)
    requires i <= |s|
    ensures ReplaceFrom(CloseOpen, s, i) == s[i..]
    decreases |s| - i
  {
    if i < |s| {
      match MatchEnd(CloseOpen, s, i)
      case Some(e) =>
        CloseOpenFrom(s, e);
        assert s[i..e] == "</sup><sup>";
        assert s[i..] == s[i..e] + s[e..];
      case None =>
        CloseOpenFrom(s, i + 1);
        assert s[i..] == [s[i]] + s[i + 1..];
    }
  }

  lemma CloseOpenIdentity(s: string)
    ensures ReplaceAll(CloseOpen, s) == s
  {
    CloseOpenFrom(s, 0);
  }

  /** A tag: '<' at its start and nowhere else. */
  predicate Tag(p: string) {
    |p| > 0 && p[0] == '<' && '<' !in p[1..]
  }

  lemma SupTags()
    ensures Tag("<sup>") && Tag("</sup>")
  {
    assert "<sup>"[1..] == "sup>";
    assert "</sup>"[1..] == "/sup>";
  }

  /** In `a + x + b` with two tags around text without '<', a match can
      only start at the first tag and close at the second. */
  lemma TaggedMatch(r: Rule, a: string, x: string, b: string, j: nat)
    requires WellFormed(r) && Tag(a) && Tag(b) && '<' !in x
    requires j <= |a + x + b| && MatchEnd(r, a + x + b, j).Some?
    ensures j == 0 && MatchEnd(r, a + x + b, j).value - |r.close| == |a| + |x|
  {
    var s := a + x + b;
    var c := MatchEnd(r, s, j).value - |r.close|;
    MatchStartsAtAngle(r, s, j);
    AngleAt(a, x, b, j);
    assert s[c] == s[c..c + |r.close|][0];
    AngleAt(a, x, b, c);
  }

  lemma AngleAt(a: string, x: string, b: string, j: nat)
    requires Tag(a) && Tag(b) && '<' !in x
    requires j < |a + x + b| && (a + x + b)[j] == '<'
    ensures j == 0 || j == |a| + |x|
  {
  }

  /** `<sup>X</sup>` with no '<' in X: no rule after the second rewrites it. */
  lemma PairFixed(r: Rule, x: string)
    requires WellFormed(r) && '<' !in x
    requires (r.open == "<sup>" && r.close == "<sup>") || r.open == "</sup>"
    ensures ReplaceAll(r, "<sup>" + x + "</sup>") == "<sup>" + x + "</sup>"
  {
    SupTags();
    var s := "<sup>" + x + "</sup>";
    assert s[0..6][1] == 's';
    assert s[5 + |x|..10 + |x|][1] == '/';
    forall j | 0 <= j < |s| ensures MatchEnd(r, s, j).None? {
      if MatchEnd(r, s, j).Some? {
        TaggedMatch(r, "<sup>", x, "</sup>", j);
      }
    }
    NoMatchFrom(r, s, 0);
  }

  /** `</sup>W</sup>` is not matched by a rule that opens with `<sup>`. */
  lemma ClosingFixed(r: Rule, w: string)
    requires WellFormed(r) && '<' !in w && r.open == "<sup>"
    ensures ReplaceAll(r, "</sup>" + w + "</sup>") == "</sup>" + w + "</sup>"
  {
    SupTags();
    var s := "</sup>" + w + "</sup>";
    assert s[0..5][1] == '/';
    forall j | 0 <= j < |s| ensures MatchEnd(r, s, j).None? {
      if MatchEnd(r, s, j).Some? {
        TaggedMatch(r, "</sup>", w, "</sup>", j);
      }
    }
    NoMatchFrom(r, s, 0);
  }

  /** A rule matching the whole of `a + x + b`, capturing `x` when its run
      covers x, rewrites it to its replacement. */
  lemma WholeMatch(r: Rule, a: string, x: string, b: string)
    requires WellFormed(r) && Tag(a) && Tag(b) && '<' !in x
    requires a == r.open && b == r.close && |x| >= MinLen(r.gap)
    requires forall k :: 0 <= k < |x| ==> InGap(r.gap, x[k])
    ensures ReplaceAll(r, a + x + b) == Replacement(r, x)
  {
    var s := a + x + b;
    assert s[..|a|] == a;
    assert s[|a| + |x|..] == b;
    forall m | |a| <= m < |a| + |x| ensures InGap(r.gap, s[m]) {
      assert s[m] == x[m - |a|];
    }
    RegexMatchUnique(r, s, 0, |a| + |x|);
    assert Captured(r, s, 0) == s[|a|..|a| + |x|] == x;
    assert ReplaceFrom(r, s, |s|) == "";
  }

  /** The first two rewrites turn `<sup>X<sup>` into `<sup>X</sup>` whenever
      X holds no '<': the digit rule when X is a non-empty run of digits,
      the general rule otherwise. */
  lemma FixOpenPair(x: string)
    requires '<' !in x
    ensures ReplaceAll(FixNested, ReplaceAll(FixDigits, "<sup>" + x + "<sup>")) == "<sup>" + x + "</sup>"
  {
    SupTags();
    var s := "<sup>" + x + "<sup>";
    if |x| > 0 && forall k :: 0 <= k < |x| ==> InGap(Digits, x[k]) {
      WholeMatch(FixDigits, "<sup>", x, "<sup>");
      PairFixed(FixNested, x);
    } else {
      forall j | 0 <= j < |s| ensures MatchEnd(FixDigits, s, j).None? {
        if MatchEnd(FixDigits, s, j).Some? {
          TaggedMatch(FixDigits, "<sup>", x, "<sup>", j);
          forall k | 0 <= k < |x| ensures InGap(Digits, x[k]) {
            assert x[k] == s[5 + k];
          }
        }
      }
      NoMatchFrom(FixDigits, s, 0);
      WholeMatch(FixNested, "<sup>", x, "<sup>");
    }
  }

  /** `<sup>X<sup>`, where X holds no '<' (digits or not), is cleaned to
      `<sup>X</sup>`. */
  lemma NestedOpenCleaned(x: string)
    requires '<' !in x
    ensures Cleanup("<sup>" + x + "<sup>") == "<sup>" + x + "</sup>"
  {
    var t := "<sup>" + x + "</sup>";
    FixOpenPair(x);
    PairFixed(DoubleClose, x);
    PairFixed(SpacedOpen, x);
    PairFixed(SpacedClose, x);
    PairFixed(DoubleOpen, x);
    PairFixed(CloseOpen, x);
    CleanupSteps("<sup>" + x + "<sup>", ReplaceAll(FixDigits, "<sup>" + x + "<sup>"), t, t, t, t, t, t);
  }

  predicate AllSpaces(w: string) {
    forall k :: 0 <= k < |w| ==> IsJsSpace(w[k])
  }

  lemma SpacesHaveNoAngle(w: string)
    requires AllSpaces(w)
    ensures '<' !in w
  {
    assert !IsJsSpace('<');
  }

  /** The chain, one rewrite at a time. */
  lemma CleanupSteps(s: string, s1: string, s2: string, s3: string, s4: string, s5: string, s6: string, s7: string)
    requires ReplaceAll(FixDigits, s) == s1 && ReplaceAll(FixNested, s1) == s2
    requires ReplaceAll(DoubleClose, s2) == s3 && ReplaceAll(SpacedOpen, s3) == s4
    requires ReplaceAll(SpacedClose, s4) == s5 && ReplaceAll(DoubleOpen, s5) == s6
    requires ReplaceAll(CloseOpen, s6) == s7
    ensures Cleanup(s) == s7
  {
  }

  /** A lone `</sup>` is left as it is by every rule. */
  lemma LoneCloseFixed()
    ensures ReplaceAll(SpacedOpen, "</sup>") == "</sup>" && ReplaceAll(SpacedClose, "</sup>") == "</sup>"
    ensures ReplaceAll(DoubleOpen, "</sup>") == "</sup>" && ReplaceAll(CloseOpen, "</sup>") == "</sup>"
  {
    ShortFixed(SpacedOpen, "</sup>");
    ShortFixed(SpacedClose, "</sup>");
    ShortFixed(DoubleOpen, "</sup>");
    ShortFixed(CloseOpen, "</sup>");
  }

  /** `</sup></sup>` is cleaned to a single `</sup>`. */
  lemma DoubleCloseCollapses()
    ensures Cleanup("</sup></sup>") == "</sup>"
  {
    SupTags();
    var s := "</sup></sup>";
    assert s == "</sup>" + [] + "</sup>";
    ClosingFixed(FixDigits, []);
    ClosingFixed(FixNested, []);
    WholeMatch(DoubleClose, "</sup>", [], "</sup>");
    LoneCloseFixed();
    CleanupSteps(s, s, s, "</sup>", "</sup>", "</sup>", "</sup>", "</sup>");
  }

  /** With white space between them, two closing tags are not a double
      closing tag. */
  lemma DoubleCloseSkipsSpaced(w: string)
    requires '<' !in w && w != []
    ensures ReplaceAll(DoubleClose, "</sup>" + w + "</sup>") == "</sup>" + w + "</sup>"
  {
    SupTags();
    var s := "</sup>" + w + "</sup>";
    assert !InGap(NoGap, s[6]);
    forall j | 0 <= j < |s| ensures MatchEnd(DoubleClose, s, j).None? {
      if MatchEnd(DoubleClose, s, j).Some? {
        TaggedMatch(DoubleClose, "</sup>", w, "</sup>", j);
      }
    }
    NoMatchFrom(DoubleClose, s, 0);
  }

  /** `</sup>`, white space, `</sup>` is cleaned to a single `</sup>`. */
  lemma SpacedCloseCollapses(w: string)
    requires AllSpaces(w) && w != []
    ensures Cleanup("</sup>" + w + "</sup>") == "</sup>"
  {
    var s := "</sup>" + w + "</sup>";
    SpacesHaveNoAngle(w);
    ClosingFixed(FixDigits, w);
    ClosingFixed(FixNested, w);
    DoubleCloseSkipsSpaced(w);
    ClosingFixed(SpacedOpen, w);
    SupTags();
    assert forall k :: 0 <= k < |w| ==> InGap(Space, w[k]);
    WholeMatch(SpacedClose, "</sup>", w, "</sup>");
    LoneCloseFixed();
    CleanupSteps(s, s, s, s, s, "</sup>", "</sup>", "</sup>");
  }

  /** On its own, the rule of line 17 collapses `<sup>`, white space,
      `<sup>` to `<sup>`. In the chain it never meets such text: the second
      rewrite has already turned it into `<sup>W</sup>` (`NestedOpenCleaned`). */
  lemma SpacedOpenRule(w: string)
    requires AllSpaces(w)
    ensures ReplaceAll(SpacedOpen, "<sup>" + w + "<sup>") == "<sup>"
  {
    SupTags();
    SpacesHaveNoAngle(w);
    WholeMatch(SpacedOpen, "<sup>", w, "<sup>");
  }

  /** On its own, the rule of line 19 collapses `<sup><sup>` to `<sup>`; in
      the chain the second rewrite has already made it `<sup></sup>`. */
  lemma DoubleOpenRule()
    ensures ReplaceAll(DoubleOpen, "<sup><sup>") == "<sup>"
  {
    SupTags();
    WholeMatch(DoubleOpen, "<sup>", [], "<sup>");
    assert "<sup>" + [] + "<sup>" == "<sup><sup>";
  }

  /** A translation without text shows the default, which the cleanup
      leaves as it is. */
  lemma MissingTextDisplayed(t: Translation)
    requires t.text.None? || t.text.value == ""
    ensures DisplayedTranslation(t) == JsString(MissingTranslation)
  {
    assert '<' !in MissingTranslation;
    NoAngleUnchanged(MissingTranslation);
  }
}
