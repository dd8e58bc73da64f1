/**
 * Worked inputs for `normalizeName` (lib/utils.ts:10-16): what the steps make
 * of particular names, including the two inputs that show it is not
 * idempotent. Each step is evaluated in a lemma of its own, so that every
 * proof looks at one string and one step at a time.
 */
module UtilsExamples {
  import opened Text
  import opened Utils

  /** Trimming and collapsing leave `"1 a"` alone. */
  lemma CleanedLeadingDigit()
    ensures Cleaned("1 a") == Strip("1 a")
  {
    CleanedOfWellSpaced("1 a");
  }

  /** Trimming and collapsing leave `"a 1 b"` alone. */
  lemma CleanedInnerDigit()
    ensures Cleaned("a 1 b") == Strip("a 1 b")
  {
    CleanedOfWellSpaced("a 1 b");
  }

  lemma CleanedApostropheHyphen()
    ensures Cleaned("o'neil-smith") == "o'neil-smith"
  {
    CleanedUnchanged("o'neil-smith");
  }

  lemma CleanedMixedCase()
    ensures Cleaned("mcDONALD") == "mcDONALD"
  {
    CleanedUnchanged("mcDONALD");
  }

  /** Leading whitespace is trimmed before anything else looks at it. */
  lemma CleanedDropsLeadingSpace(c: char, t: string)
    requires IsSpace(c)
    ensures Cleaned([c] + t) == Cleaned(t)
  {
    assert ([c] + t)[1..] == t;
    assert TrimStart([c] + t) == TrimStart(t);
  }

  /** A letter behind one whitespace character is cleaned to the letter alone. */
  lemma CleanedLetterAfterSpace(c: char, x: char)
    requires IsSpace(c) && IsLetter(x)
    ensures Cleaned([c, x]) == [x]
  {
    assert [c, x] == [c] + [x];
    CleanedDropsLeadingSpace(c, [x]);
    CleanedUnchanged([x]);
  }

  lemma StripDigitFirst()
    ensures Strip("1 a") == " a"
  {
  }

  lemma StripDigitInside()
    ensures Strip("a 1 b") == "a  b"
  {
  }

  lemma CapitalizeShort()
    ensures Capitalize(" a") == " A"
    ensures Capitalize("A") == "A"
    ensures Capitalize("a  b") == "A  B"
  {
  }

  /** Capitalisation after an apostrophe and a hyphen. */
  lemma CapitalizeApostropheHyphen()
    ensures Capitalize("o'neil-smith") == "O'Neil-Smith"
  {
    var t := "o'neil-smith";
    forall k | 0 <= k < |t| ensures Capitalize(t)[k] == "O'Neil-Smith"[k] {
      CapitalizeAt(t, k);
    }
  }

  /** Capitalisation of a word with upper-case letters inside. */
  lemma CapitalizeMixedCase()
    ensures Capitalize("mcDONALD") == "McDONALD"
  {
    var t := "mcDONALD";
    forall k | 0 <= k < |t| ensures Capitalize(t)[k] == "McDONALD"[k] {
      CapitalizeAt(t, k);
    }
  }

  /** Stripping after collapsing leaves an edge space behind, which a second
      pass trims away: normalisation is not idempotent. */
  lemma NormalizeNameNotIdempotent()
    ensures NormalizeName("1 a") == " A"
    ensures NormalizeName(NormalizeName("1 a")) == "A"
  {
    CleanedLeadingDigit();
    StripDigitFirst();
    CapitalizeShort();
    CleanedLetterAfterSpace(' ', 'A');
    assert " A" == [' ', 'A'];
  }

  /** A stripped character between two spaces leaves a double space. */
  lemma NormalizeNameDoubleSpace()
    ensures NormalizeName("a 1 b") == "A  B"
  {
    CleanedInnerDigit();
    StripDigitInside();
    CapitalizeShort();
  }

  /** Word starts follow apostrophes and hyphens. */
  lemma NormalizeNameApostropheHyphen()
    ensures NormalizeName("o'neil-smith") == "O'Neil-Smith"
  {
    CleanedApostropheHyphen();
    CapitalizeApostropheHyphen();
  }

  /** Letters inside a word keep their case. */
  lemma NormalizeNameKeepsInnerCase()
    ensures NormalizeName("mcDONALD") == "McDONALD"
  {
    CleanedMixedCase();
    CapitalizeMixedCase();
  }
}
