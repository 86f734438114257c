/** The content blocks of src/utils/surahContentGenerator.ts. The source
    interpolates these fields into styled HTML templates; the model keeps the
    interpolated fields and drops the styling. */
module SurahBlocks {
  import opened QuranTypes

  /** What the main verse template shows: number badge, optional Sajdah and
      Ruku badges, Arabic text, and a translations section shown only when
      `translations` is non-empty. */
  datatype CardView = CardView(verseNumber: int, sajdahBadge: Option<int>, rukuBadge: Option<int>,
                               arabic: string, translations: seq<string>)

  /** A block handed to the PDF generator, with the values its template
      interpolates. */
  datatype Block =
    /** generateSurahHeader: simple name, Arabic name, "Chapter <id> • <count> verses". */
    | SurahHeader(nameSimple: string, nameArabic: string, chapterId: int, versesCount: int)
    /** generateBismillah: fixed text. */
    | Bismillah
    /** generateVerse, main template. */
    | VerseCard(card: CardView)
    /** generateVerse, fallback template: number badge and Arabic text only. */
    | VerseFallback(verseNumber: int, arabic: string)

  const HeaderSpacing: int := 15
  const VerseSpacing: int := 10
  const TruncateAt: nat := 5000
  const Ellipsis: string := "..."

  /** sanitizeTranslation: empty stays empty, over 5000 characters keeps the
      first 5000 and appends "...", anything else is unchanged. */
  function SanitizeTranslation(text: string): (r: string)
    ensures |r| <= TruncateAt + |Ellipsis|
    ensures r == [] <==> text == []
    ensures |text| <= TruncateAt ==> r == text
    ensures |text| > TruncateAt ==> |r| == TruncateAt + 3 && r[..TruncateAt] == text[..TruncateAt] && r[TruncateAt..] == Ellipsis
  {
    if text == [] then []
    else if |text| > TruncateAt then text[..TruncateAt] + Ellipsis
    else text
  }

  /** Sanitizing twice is sanitizing once: a truncated text has 5003
      characters and truncates back to itself. */
  lemma SanitizeIdempotent(text: string)
    ensures SanitizeTranslation(SanitizeTranslation(text)) == SanitizeTranslation(text)
  {
    var once := SanitizeTranslation(text);
    if |text| > TruncateAt {
      assert once[..TruncateAt] + Ellipsis == once;
    }
  }

  /** Each translation, defaulted and sanitized, in order. */
  function SanitizedTexts(ts: seq<Translation>): seq<string> {
    if ts == [] then [] else SanitizedTexts(ts[..|ts| - 1]) + [SanitizeTranslation(TextOrDefault(ts[|ts| - 1]))]
  }

  /** The translation texts of a verse card: none when the list is absent or
      empty. */
  function TranslationTexts(v: Verse): seq<string> {
    if v.translations.Some? && |v.translations.value| > 0 then SanitizedTexts(v.translations.value) else []
  }

  /** The translations list keeps the length and the order of the verse's
      translations: entry i is translation i's text, or the default sentence
      when that text is missing, sanitized. Absent or empty translations give
      an empty list. */
  lemma TranslationTextsAt(v: Verse)
    ensures v.translations.None? ==> TranslationTexts(v) == []
    ensures v.translations.Some? ==> |TranslationTexts(v)| == |v.translations.value|
    ensures v.translations.Some? ==> forall i :: 0 <= i < |v.translations.value| ==>
      TranslationTexts(v)[i] == SanitizeTranslation(TextOrDefault(v.translations.value[i]))
  {
    if v.translations.Some? {
      var ts := v.translations.value;
      SanitizedTextsLength(ts);
      forall i | 0 <= i < |ts|
        ensures TranslationTexts(v)[i] == SanitizeTranslation(TextOrDefault(ts[i]))
      {
        SanitizedTextAt(ts, i);
      }
    }
  }

  lemma {:induction false} SanitizedTextsLength(ts: seq<Translation>)
    ensures |SanitizedTexts(ts)| == |ts|
  {
    if ts != [] {
      SanitizedTextsLength(ts[..|ts| - 1]);
    }
  }

  lemma {:induction false} SanitizedTextAt(ts: seq<Translation>, i: nat)
    requires i < |ts|
    ensures |SanitizedTexts(ts)| == |ts|
    ensures SanitizedTexts(ts)[i] == SanitizeTranslation(TextOrDefault(ts[i]))
  {
    var init := ts[..|ts| - 1];
    SanitizedTextsLength(ts);
    SanitizedTextsLength(init);
    if i < |init| {
      SanitizedTextAt(init, i);
      assert init[i] == ts[i];
    }
  }

  /** A translation whose text is missing shows the default sentence, which is
      short enough to pass sanitizing unchanged. */
  lemma MissingTranslationShown(v: Verse, i: nat)
    requires v.translations.Some? && i < |v.translations.value|
    requires v.translations.value[i].text.None?
    ensures i < |TranslationTexts(v)| && TranslationTexts(v)[i] == MissingTranslation
  {
    TranslationTextsAt(v);
  }

  /** `${x ? badge : ''}`: a badge is shown only for a truthy number, so neither
      null nor 0 gives one. */
  function SajdahBadge(v: Verse): (r: Option<int>)
    ensures r.Some? <==> v.sajdahNumber.Some? && v.sajdahNumber.value != 0
    ensures r.Some? ==> r.value == v.sajdahNumber.value
  {
    if v.sajdahNumber.Some? && v.sajdahNumber.value != 0 then v.sajdahNumber else None
  }

  function RukuBadge(v: Verse): (r: Option<int>)
    ensures r.Some? <==> v.rukuNumber != 0
    ensures r.Some? ==> r.value == v.rukuNumber
  {
    if v.rukuNumber != 0 then Some(v.rukuNumber) else None
  }

  function HeaderBlock(c: Chapter): Block {
    SurahHeader(c.nameSimple, c.nameArabic, c.id, c.versesCount)
  }

  /** The main template's content for a verse. */
  function VerseCardView(v: Verse): (r: CardView)
    ensures r.verseNumber == v.verseNumber
    ensures r.arabic == StringOrEmpty(v.textUthmani)
    ensures r.sajdahBadge == SajdahBadge(v) && r.rukuBadge == RukuBadge(v)
    ensures r.translations == TranslationTexts(v)
  {
    CardView(v.verseNumber, SajdahBadge(v), RukuBadge(v), StringOrEmpty(v.textUthmani), TranslationTexts(v))
  }

  function VerseBlock(v: Verse): Block {
    VerseCard(VerseCardView(v))
  }

  /** The fallback keeps only the verse number and the Arabic text. */
  function FallbackBlock(v: Verse): (r: Block)
    ensures r.VerseFallback? && r.verseNumber == v.verseNumber && r.arabic == StringOrEmpty(v.textUthmani)
  {
    VerseFallback(v.verseNumber, StringOrEmpty(v.textUthmani))
  }
}
