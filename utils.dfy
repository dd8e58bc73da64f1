/**
 * lib/utils.ts: the display-name normaliser and the signup domain allow-list.
 *
 * `normalizeName` is a chain of four string rewrites, each modelled as its own
 * function: `Trim`, `Collapse` (`/\s+/g` to one space), `Strip` (drop every
 * character outside `[a-zA-Z\s'-]`) and `Capitalize` (`/\b\w/g` to upper case).
 * Stripping runs after collapsing, so a removed character can leave a space at
 * an edge or two spaces side by side; the model keeps that behaviour.
 */
module Utils {
  import opened Text

  // ---------------------------------------------------------------------------
  // Step 1: trim
  // ---------------------------------------------------------------------------

  /** Removes the longest whitespace prefix. */
  function TrimStart(s: string): (r: string)
    ensures |r| <= |s| && r == s[|s| - |r|..]
    ensures forall k :: 0 <= k < |s| - |r| ==> IsSpace(s[k])
    ensures r == [] || !IsSpace(r[0])
  {
    if s != [] && IsSpace(s[0]) then TrimStart(s[1..]) else s
  }

  /** Removes the longest whitespace suffix. */
  function TrimEnd(s: string): (r: string)
    ensures |r| <= |s| && r == s[..|r|]
    ensures forall k :: |r| <= k < |s| ==> IsSpace(s[k])
    ensures r == [] || !IsSpace(r[|r| - 1])
  {
    if s != [] && IsSpace(s[|s| - 1]) then TrimEnd(s[..|s| - 1]) else s
  }

  /** `s.trim()`: the slice of `s` left once whitespace is removed from both
      ends; what is removed is whitespace, and what is left does not begin or
      end with whitespace. */
  function Trim(s: string): (r: string)
    ensures var i := |s| - |TrimStart(s)|;
      && i + |r| <= |s|
      && r == s[i..i + |r|]
      && (forall k :: 0 <= k < i ==> IsSpace(s[k]))
      && (forall k :: i + |r| <= k < |s| ==> IsSpace(s[k]))
    ensures r == [] || (!IsSpace(r[0]) && !IsSpace(r[|r| - 1]))
  {
    TrimEnd(TrimStart(s))
  }

  // ---------------------------------------------------------------------------
  // Step 2: collapse whitespace
  // ---------------------------------------------------------------------------

  /** Two spaces side by side at `k` and `k + 1`. */
  predicate DoubleSpaceAt(s: string, k: int)
    requires 0 <= k < |s| - 1
  {
    s[k] == ' ' && s[k + 1] == ' '
  }

  /** The only whitespace is the plain space, and no two spaces are adjacent. */
  predicate WellSpaced(s: string) {
    && (forall k :: 0 <= k < |s| && IsSpace(s[k]) ==> s[k] == ' ')
    && (forall k :: 0 <= k < |s| - 1 ==> !DoubleSpaceAt(s, k))
  }

  /** What one character adds to the collapse: itself if it is not whitespace,
      one space if it starts a whitespace run, nothing if it continues one. */
  function CollapseStep(c: char, inRun: bool): (r: string)
    ensures |r| <= 1
  {
    if !IsSpace(c) then [c] else if inRun then [] else [' ']
  }

  /** The left-to-right scan of `replace(/\s+/g, " ")`; `inRun` tells whether
      the character before `s` was whitespace. */
  function CollapseFrom(s: string, inRun: bool): (r: string)
    ensures |r| <= |s|
  {
    if s == [] then [] else CollapseStep(s[0], inRun) + CollapseFrom(s[1..], IsSpace(s[0]))
  }

  /** `s.replace(/\s+/g, " ")`: every maximal run of whitespace becomes one space. */
  function Collapse(s: string): (r: string)
    ensures |r| <= |s|
    ensures r == [] <==> s == []
  {
    CollapseFrom(s, false)
  }

  // ---------------------------------------------------------------------------
  // Step 3: strip
  // ---------------------------------------------------------------------------

  /** `[a-zA-Z\s'-]` */
  predicate Kept(c: char) {
    IsLetter(c) || IsSpace(c) || c == '\'' || c == '-'
  }

  /** `s.replace(/[^a-zA-Z\s'-]/g, "")`: deletes every character outside the class. */
  function Strip(s: string): (r: string)
    ensures |r| <= |s|
  {
    if s == [] then [] else (if Kept(s[0]) then [s[0]] else []) + Strip(s[1..])
  }

  // ---------------------------------------------------------------------------
  // Step 4: capitalise word starts
  // ---------------------------------------------------------------------------

  /** Where `\b\w` matches: a word character at the start or after a non-word character. */
  predicate IsWordStart(t: string, i: int)
    requires 0 <= i < |t|
  {
    IsWordChar(t[i]) && (i == 0 || !IsWordChar(t[i - 1]))
  }

  /** The left-to-right scan of `replace(/\b\w/g, toUpperCase)`; `afterWord`
      tells whether the character before `t` was a word character. */
  function CapitalizeFrom(t: string, afterWord: bool): (r: string)
    ensures |r| == |t|
  {
    if t == [] then []
    else
      [if IsWordChar(t[0]) && !afterWord then ToUpper(t[0]) else t[0]]
      + CapitalizeFrom(t[1..], IsWordChar(t[0]))
  }

  /** `t.replace(/\b\w/g, (char) => char.toUpperCase())` */
  function Capitalize(t: string): (r: string)
    ensures |r| == |t|
  {
    CapitalizeFrom(t, false)
  }

  // ---------------------------------------------------------------------------
  // normalizeName
  // ---------------------------------------------------------------------------

  /** The name after the first three steps, before capitalisation. */
  function Cleaned(s: string): (t: string)
    ensures |t| <= |s|
  {
    Strip(Collapse(Trim(s)))
  }

  /** `normalizeName(name)` (lib/utils.ts:10-16). */
  function NormalizeName(s: string): (r: string)
    ensures |r| <= |s|
  {
    Capitalize(Cleaned(s))
  }

  // ---------------------------------------------------------------------------
  // VALID_DOMAINS
  // ---------------------------------------------------------------------------

  const ProductionDomains: seq<string> := ["gmail.com", "outlook.com", "yahoo.com", "hotmail.com", ""]

  const DevelopmentDomain: string := "example.com"

  /** The list that `VALID_DOMAINS()` returns when `NODE_ENV` is (`isDev`) or is
      not `"development"`. */
  function Domains(isDev: bool): seq<string> {
    ProductionDomains + if isDev then [DevelopmentDomain] else []
  }

  /** `VALID_DOMAINS()` as written: build the production list, then push the
      development domain onto it in development. */
  method ValidDomains(isDev: bool) returns (domains: seq<string>)
    ensures domains == Domains(isDev)
    ensures |domains| == if isDev then 6 else 5
    ensures DevelopmentDomain in domains <==> isDev
  {
    domains := ["gmail.com", "outlook.com", "yahoo.com", "hotmail.com", ""];
    if isDev {
      domains := domains + ["example.com"];
    }
    DomainsMembership(isDev, DevelopmentDomain);
  }

  // ---------------------------------------------------------------------------
  // Properties of the allow-list
  // ---------------------------------------------------------------------------

  /** The allow-list holds the four mail providers and the empty string in every
      environment, and `example.com` exactly in development. */
  lemma DomainsMembership(isDev: bool, d: string)
    ensures d in Domains(isDev) <==>
      d == "gmail.com" || d == "outlook.com" || d == "yahoo.com" || d == "hotmail.com" || d == ""
      || (isDev && d == "example.com")
  {
  }

  /** The production list is a prefix of the development list, of lengths 5 and 6. */
  lemma DomainsPrefix()
    ensures Domains(false) <= Domains(true)
    ensures |Domains(false)| == 5 && |Domains(true)| == 6
  {
  }

  // ---------------------------------------------------------------------------
  // Properties of the individual steps
  // ---------------------------------------------------------------------------

  /** The front trim removes everything exactly when everything is whitespace. */
  lemma {:induction false} TrimStartBlankIff(s: string)
    ensures TrimStart(s) == [] <==> forall k :: 0 <= k < |s| ==> IsSpace(s[k])
  {
    if s != [] {
      TrimStartBlankIff(s[1..]);
      assert forall k :: 1 <= k < |s| ==> s[k] == s[1..][k - 1];
    }
  }

  /** The scan is well spaced; it begins with a space exactly when the input
      begins with whitespace outside a run; it ends with a space exactly when
      the input ends with whitespace; and it is empty only for input that is
      empty or continues a run to the end. */
  lemma {:induction false} CollapseShape(s: string, inRun: bool)
    ensures var r := CollapseFrom(s, inRun);
      && WellSpaced(r)
      && (r != [] ==> (IsSpace(r[0]) <==> IsSpace(s[0]) && !inRun))
      && (r != [] ==> (IsSpace(r[|r| - 1]) <==> IsSpace(s[|s| - 1])))
      && (r == [] && s != [] ==> inRun && forall k :: 0 <= k < |s| ==> IsSpace(s[k]))
  {
    if s != [] {
      var r, h, t := CollapseFrom(s, inRun), CollapseStep(s[0], inRun), s[1..];
      var tail := CollapseFrom(t, IsSpace(s[0]));
      CollapseShape(t, IsSpace(s[0]));
      assert r == h + tail;
      if tail == [] && t != [] {
        assert forall k :: 1 <= k < |s| ==> s[k] == t[k - 1];
      }
      if tail != [] {
        assert r[|r| - 1] == tail[|tail| - 1];
        assert t[|t| - 1] == s[|s| - 1];
      }
      forall k | 0 <= k < |r| - 1 ensures !DoubleSpaceAt(r, k) {
        if |h| == 1 && k > 0 {
          assert r[k] == tail[k - 1] && r[k + 1] == tail[k];
          assert !DoubleSpaceAt(tail, k - 1);
        } else if |h| == 0 {
          assert !DoubleSpaceAt(tail, k);
        }
      }
    }
  }

  /** A non-whitespace character splits the collapse: each side is collapsed on
      its own. */
  lemma {:induction false} CollapseAround(a: string, c: char, b: string, inRun: bool)
    requires !IsSpace(c)
    ensures CollapseFrom(a + [c] + b, inRun) == CollapseFrom(a, inRun) + [c] + CollapseFrom(b, false)
  {
    var s := a + [c] + b;
    if a == [] {
      assert s[0] == c && s[1..] == b;
    } else {
      assert s[0] == a[0] && s[1..] == a[1..] + [c] + b;
      CollapseAround(a[1..], c, b, IsSpace(a[0]));
      var h, x, y := CollapseStep(a[0], inRun), CollapseFrom(a[1..], IsSpace(a[0])), CollapseFrom(b, false);
      assert h + (x + [c] + y) == (h + x) + [c] + y;
    }
  }

  /** Whitespace that continues a run adds nothing. */
  lemma {:induction false} CollapseInsideRun(w: string)
    requires forall k :: 0 <= k < |w| ==> IsSpace(w[k])
    ensures CollapseFrom(w, true) == []
  {
    if w != [] {
      CollapseInsideRun(w[1..]);
    }
  }

  /** A non-empty run of whitespace collapses to exactly one space. */
  lemma CollapseRun(w: string)
    requires w != []
    requires forall k :: 0 <= k < |w| ==> IsSpace(w[k])
    ensures Collapse(w) == " "
  {
    CollapseInsideRun(w[1..]);
  }

  /** A well-spaced string is left unchanged by the collapse (inside a run, as
      long as it does not begin with a space). */
  lemma {:induction false} CollapseWellSpacedFrom(s: string, inRun: bool)
    requires WellSpaced(s)
    requires inRun ==> s == [] || s[0] != ' '
    ensures CollapseFrom(s, inRun) == s
  {
    if s != [] {
      forall k | 0 <= k < |s| - 2 ensures !DoubleSpaceAt(s[1..], k) {
        assert !DoubleSpaceAt(s, k + 1);
      }
      if |s| > 1 {
        assert !DoubleSpaceAt(s, 0);
      }
      CollapseWellSpacedFrom(s[1..], IsSpace(s[0]));
      assert [s[0]] + s[1..] == s;
    }
  }

  lemma CollapseWellSpaced(s: string)
    requires WellSpaced(s)
    ensures Collapse(s) == s
  {
    CollapseWellSpacedFrom(s, false);
  }

  /** Two adjacent whitespace characters make the collapse strictly shorter. */
  lemma {:induction false} CollapseShrinks(s: string, i: int, inRun: bool)
    requires 0 <= i < |s| - 1 && IsSpace(s[i]) && IsSpace(s[i + 1])
    ensures |CollapseFrom(s, inRun)| < |s|
  {
    if i == 0 {
      assert s[1..][1..] == s[2..];
    } else {
      CollapseShrinks(s[1..], i - 1, IsSpace(s[0]));
    }
  }

  /** Stripping only deletes: every character left was in the input and is in
      the kept class. */
  lemma {:induction false} StripChars(s: string)
    ensures forall c :: c in Strip(s) ==> c in s && Kept(c)
  {
    if s != [] {
      StripChars(s[1..]);
    }
  }

  /** Stripping works character by character. */
  lemma {:induction false} StripAppend(a: string, b: string)
    ensures Strip(a + b) == Strip(a) + Strip(b)
  {
    if a == [] {
      assert a + b == b;
    } else {
      assert (a + b)[0] == a[0] && (a + b)[1..] == a[1..] + b;
      StripAppend(a[1..], b);
      var x := if Kept(a[0]) then [a[0]] else [];
      calc {
        Strip(a + b);
        x + Strip(a[1..] + b);
        x + (Strip(a[1..]) + Strip(b));
        (x + Strip(a[1..])) + Strip(b);
      }
    }
  }

  /** A string whose characters are all kept is its own strip. */
  lemma {:induction false} StripAllKept(s: string)
    requires forall k :: 0 <= k < |s| ==> Kept(s[k])
    ensures Strip(s) == s
  {
    if s != [] {
      StripAllKept(s[1..]);
      assert [s[0]] + s[1..] == s;
    }
  }

  lemma {:induction false} CapitalizeFromAt(t: string, afterWord: bool, i: int)
    requires 0 <= i < |t|
    ensures CapitalizeFrom(t, afterWord)[i] ==
      if IsWordChar(t[i]) && (if i == 0 then !afterWord else !IsWordChar(t[i - 1]))
      then ToUpper(t[i]) else t[i]
  {
    if i > 0 {
      CapitalizeFromAt(t[1..], IsWordChar(t[0]), i - 1);
    }
  }

  /** Capitalisation upper-cases exactly the characters where `\b\w` matches. */
  lemma CapitalizeAt(t: string, i: int)
    requires 0 <= i < |t|
    ensures Capitalize(t)[i] == if IsWordStart(t, i) then ToUpper(t[i]) else t[i]
  {
    CapitalizeFromAt(t, false, i);
  }

  // ---------------------------------------------------------------------------
  // Properties of normalizeName
  // ---------------------------------------------------------------------------

  /** What can appear in a normalised name: ASCII letters, space, apostrophe, hyphen. */
  predicate IsNameChar(c: char) {
    IsLetter(c) || c == ' ' || c == '\'' || c == '-'
  }

  /** A letter at the start or right after a non-letter. */
  predicate IsLetterStart(t: string, i: int)
    requires 0 <= i < |t|
  {
    IsLetter(t[i]) && (i == 0 || !IsLetter(t[i - 1]))
  }

  /** After the first three steps only name characters are left. */
  lemma CleanedChars(s: string)
    ensures forall c :: c in Cleaned(s) ==> IsNameChar(c)
  {
    var u := Collapse(Trim(s));
    CollapseShape(Trim(s), false);
    StripChars(u);
    forall c | c in Cleaned(s) ensures IsNameChar(c) {
      assert c in u && Kept(c);
      var k :| 0 <= k < |u| && u[k] == c;
      assert IsSpace(c) ==> c == ' ';
    }
  }

  /** Each character of the result is the cleaned character, upper-cased where
      a letter starts a word and kept as it is everywhere else. */
  lemma NormalizeNameAt(s: string, i: int)
    requires 0 <= i < |Cleaned(s)|
    ensures |NormalizeName(s)| == |Cleaned(s)|
    ensures NormalizeName(s)[i] ==
      var t := Cleaned(s); if IsLetterStart(t, i) then ToUpper(t[i]) else t[i]
  {
    var t := Cleaned(s);
    CleanedChars(s);
    CapitalizeAt(t, i);
    assert t[i] in t;
    if i > 0 {
      assert t[i - 1] in t;
    }
  }

  /** The result contains only ASCII letters, spaces, apostrophes and hyphens. */
  lemma NormalizeNameChars(s: string)
    ensures forall k :: 0 <= k < |NormalizeName(s)| ==> IsNameChar(NormalizeName(s)[k])
  {
    forall k | 0 <= k < |NormalizeName(s)| ensures IsNameChar(NormalizeName(s)[k]) {
      NormalizeNameAt(s, k);
      CleanedChars(s);
      assert Cleaned(s)[k] in Cleaned(s);
    }
  }

  /** Every letter at the start of the result or after a space, apostrophe or
      hyphen is upper case. */
  lemma NormalizeNameWordStarts(s: string)
    ensures var r := NormalizeName(s);
      forall k :: 0 <= k < |r| && IsLetterStart(r, k) ==> IsUpper(r[k])
  {
    var r, t := NormalizeName(s), Cleaned(s);
    forall k | 0 <= k < |r| && IsLetterStart(r, k) ensures IsUpper(r[k]) {
      NormalizeNameAt(s, k);
      if k > 0 {
        NormalizeNameAt(s, k - 1);
      }
    }
  }


  /** Empty or all-whitespace input normalises to the empty string. */
  lemma NormalizeNameBlank(s: string)
    requires forall k :: 0 <= k < |s| ==> IsSpace(s[k])
    ensures NormalizeName(s) == ""
  {
    TrimStartBlankIff(s);
  }

  /** A name in normal form: name characters only, no space at either edge, no
      two spaces side by side, and a capital at every word start. */
  predicate IsNormalName(s: string) {
    && (forall k :: 0 <= k < |s| ==> IsNameChar(s[k]))
    && (s == [] || (s[0] != ' ' && s[|s| - 1] != ' '))
    && (forall k :: 0 <= k < |s| - 1 ==> !DoubleSpaceAt(s, k))
    && (forall k :: 0 <= k < |s| && IsLetterStart(s, k) ==> IsUpper(s[k]))
  }

  /** A string that neither begins nor ends with whitespace is its own trim. */
  lemma TrimUnchanged(s: string)
    requires s == [] || (!IsSpace(s[0]) && !IsSpace(s[|s| - 1]))
    ensures Trim(s) == s
  {
    assert TrimStart(s) == s;
  }

  /** A string with a capital at every word start is its own capitalisation,
      provided its only word characters are letters. */
  lemma CapitalizeUnchanged(s: string)
    requires forall k :: 0 <= k < |s| ==> IsNameChar(s[k])
    requires forall k :: 0 <= k < |s| && IsLetterStart(s, k) ==> IsUpper(s[k])
    ensures Capitalize(s) == s
  {
    forall k | 0 <= k < |s| ensures Capitalize(s)[k] == s[k] {
      CapitalizeAt(s, k);
      if k > 0 {
        assert IsNameChar(s[k - 1]);
      }
    }
  }

  /** A string of name characters with no edge space and no double space
      passes the first three steps unchanged. */
  lemma CleanedUnchanged(s: string)
    requires forall k :: 0 <= k < |s| ==> IsNameChar(s[k])
    requires s == [] || (s[0] != ' ' && s[|s| - 1] != ' ')
    requires forall k :: 0 <= k < |s| - 1 ==> !DoubleSpaceAt(s, k)
    ensures Cleaned(s) == s
  {
    if s != [] {
      assert IsNameChar(s[0]) && IsNameChar(s[|s| - 1]);
    }
    TrimUnchanged(s);
    assert WellSpaced(s) by {
      forall k | 0 <= k < |s| && IsSpace(s[k]) ensures s[k] == ' ' {
        assert IsNameChar(s[k]);
      }
    }
    CollapseWellSpaced(s);
    StripAllKept(s);
  }

  /** For a well-spaced string without edge whitespace the first two steps do
      nothing, so only the strip is left. */
  lemma CleanedOfWellSpaced(s: string)
    requires s == [] || (!IsSpace(s[0]) && !IsSpace(s[|s| - 1]))
    requires WellSpaced(s)
    ensures Cleaned(s) == Strip(s)
  {
    TrimUnchanged(s);
    CollapseWellSpaced(s);
  }

  lemma NormalFormIsFixed(s: string)
    requires IsNormalName(s)
    ensures NormalizeName(s) == s
  {
    CleanedUnchanged(s);
    CapitalizeUnchanged(s);
  }

  lemma FixedIsNormalForm(s: string)
    requires NormalizeName(s) == s
    ensures IsNormalName(s)
  {
    var t := Trim(s);
    var u := Collapse(t);
    assert |s| == |Cleaned(s)| <= |u| <= |t| <= |s|;
    assert t == s;
    NormalizeNameChars(s);
    NormalizeNameWordStarts(s);
    forall k | 0 <= k < |s| - 1 ensures !DoubleSpaceAt(s, k) {
      if DoubleSpaceAt(s, k) {
        CollapseShrinks(s, k, false);
      }
    }
  }

  /** The normal forms are exactly the names that normalisation leaves unchanged. */
  lemma NormalizeNameFixedPoint(s: string)
    ensures NormalizeName(s) == s <==> IsNormalName(s)
  {
    if IsNormalName(s) {
      NormalFormIsFixed(s);
    }
    if NormalizeName(s) == s {
      FixedIsNormalForm(s);
    }
  }
}
