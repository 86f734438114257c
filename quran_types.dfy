/** The shapes of src/types/quran.ts, and the small value helpers that the
    chapter builder, the verse display and the file-name logic share. */
module QuranTypes {

  datatype Option<T> = None | Some(value: T)

  /** One entry of a verse's `translations` list. The payload is untyped in
      the source; only its `text` field is read, and it may be absent. */
  datatype Translation = Translation(text: Option<string>)

  /** `Chapter` (quran.ts:1-7). */
  datatype Chapter = Chapter(
    id: int,
    bismillahPre: bool,
    nameSimple: string,
    nameArabic: string,
    versesCount: int)

  /** `Verse` (quran.ts:9-16). `text_uthmani` and `translations` arrive from
      a JSON payload and may be missing; `sajdah_number` may be null. */
  datatype Verse = Verse(
    id: int,
    verseNumber: int,
    rukuNumber: int,
    sajdahNumber: Option<int>,
    textUthmani: Option<string>,
    translations: Option<seq<Translation>>)

  /** `QuranData` (quran.ts:18-21). */
  datatype QuranData = QuranData(chapter: Chapter, verses: seq<Verse>)

  /** An entry of the surah list the home page and the file-name logic read. */
  datatype SurahEntry = SurahEntry(id: int, name: string)

  const MissingTranslation: string := "Translation not available"

  /** `translation.text || 'Translation not available'`: an absent or empty
      text is falsy and is replaced by the default. */
  function TextOrDefault(t: Translation): (s: string)
    ensures s != []
    ensures t.text.Some? && t.text.value != [] ==> s == t.text.value
    ensures t.text.None? || t.text.value == [] ==> s == MissingTranslation
  {
    if t.text.Some? && t.text.value != [] then t.text.value else MissingTranslation
  }

  /** `x || ''` for an optional string. */
  function StringOrEmpty(s: Option<string>): (r: string)
    ensures s.Some? ==> r == s.value
    ensures s.None? ==> r == []
  {
    if s.Some? then s.value else []
  }

  predicate IsDigit(c: char) {
    '0' <= c <= '9'
  }

  function DigitChar(d: nat): (c: char)
    requires d < 10
    ensures IsDigit(c)
  {
    "0123456789"[d]
  }

  function DigitValue(c: char): (d: nat)
    requires IsDigit(c)
    ensures d < 10
  {
    (c as int - '0' as int) as nat
  }

  /** The decimal form JavaScript's template literals give a whole number. */
  function NatToDecimal(n: nat): (s: string)
    ensures s != []
    ensures forall i :: 0 <= i < |s| ==> IsDigit(s[i])
    decreases n
  {
    if n < 10 then [DigitChar(n)] else NatToDecimal(n / 10) + [DigitChar(n % 10)]
  }

  function IntToDecimal(i: int): (s: string)
    ensures s != []
    ensures i >= 0 ==> s == NatToDecimal(i)
    ensures i < 0 ==> s == "-" + NatToDecimal(-i)
  {
    if i < 0 then "-" + NatToDecimal(-i) else NatToDecimal(i)
  }

  /** The value of a string of decimal digits. */
  function DecimalValue(s: string): (n: nat)
    requires forall i :: 0 <= i < |s| ==> IsDigit(s[i])
  {
    if s == [] then 0 else 10 * DecimalValue(s[..|s| - 1]) + DigitValue(s[|s| - 1])
  }

  /** Printing a number and reading it back gives the number. */
  lemma {:induction false} DecimalRoundTrip(n: nat)
    ensures DecimalValue(NatToDecimal(n)) == n
  {
    var s := NatToDecimal(n);
    if n >= 10 {
      DecimalRoundTrip(n / 10);
      assert s[..|s| - 1] == NatToDecimal(n / 10);
    }
  }
}
