/**
 * PdfFontValidator: the decision whether a font can be printed, the font-name normaliser and
 * matcher, the collection of unsupported fonts, and the de-duplicated font list of a page.
 */
module Fonts {
  import opened Optional
  import opened Text

  /** What the font descriptor tells: its font name and the three embedded-program slots. */
  datatype FontDescriptor = FontDescriptor(
    fontName: Option<string>, hasFontFile: bool, hasFontFile2: bool, hasFontFile3: bool)

  /**
   * A font as the PDF library hands it over. `id` stands for the identity of the font's
   * dictionary, which is what makes two font objects equal.
   */
  datatype Font = Font(
    id: nat, name: Option<string>, damaged: bool, descriptor: Option<FontDescriptor>, isType0: bool)

  /** The standard Type 1 names, plus the white-listed ARIAL. */
  const StandardFonts: seq<string> := ["TIMES", "COURIER", "HELVETICA", "SYMBOL", "ZAPFDINGBATS"]
  const WhiteListedFonts: seq<string> := ["ARIAL"]
  const SupportedFonts: seq<string> := StandardFonts + WhiteListedFonts

  /** Java's Character.isWhitespace: the ASCII controls and the non-breaking-free Unicode spaces. */
  predicate IsWhitespace(c: char) {
    || c == ' ' || c == '\t' || c == '\n' || c == '\U{000B}' || c == '\U{000C}' || c == '\r'
    || ('\U{001C}' <= c <= '\U{001F}') || c == '\U{1680}'
    || ('\U{2000}' <= c <= '\U{2006}') || ('\U{2008}' <= c <= '\U{200A}')
    || c == '\U{2028}' || c == '\U{2029}' || c == '\U{205F}' || c == '\U{3000}'
  }

  predicate IsLowerAscii(c: char) { 'a' <= c <= 'z' }

  function ToUpper(c: char): char {
    if IsLowerAscii(c) then (c as int - 32) as char else c
  }

  function ToLower(c: char): char {
    if 'A' <= c <= 'Z' then (c as int + 32) as char else c
  }

  /** StringUtils.remove(s, "-"): every hyphen dropped, the rest kept in order. */
  function RemoveHyphens(s: string): (r: string)
    ensures '-' !in r && |r| <= |s|
  {
    if s == [] then [] else (if s[0] == '-' then [] else [s[0]]) + RemoveHyphens(s[1..])
  }

  /** StringUtils.deleteWhitespace: every whitespace character dropped. */
  function DeleteWhitespace(s: string): (r: string)
    ensures forall k | 0 <= k < |r| :: !IsWhitespace(r[k])
    ensures '-' !in s ==> '-' !in r
  {
    if s == [] then [] else (if IsWhitespace(s[0]) then [] else [s[0]]) + DeleteWhitespace(s[1..])
  }

  /** upperCase, on the ASCII letters. */
  function UpperCase(s: string): (r: string)
    ensures |r| == |s|
    ensures forall k | 0 <= k < |r| :: !IsLowerAscii(r[k])
  {
    if s == [] then [] else [ToUpper(s[0])] + UpperCase(s[1..])
  }

  function LowerCase(s: string): (r: string)
    ensures |r| == |s|
  {
    if s == [] then [] else [ToLower(s[0])] + LowerCase(s[1..])
  }

  /** The name as it is compared: hyphens removed, whitespace deleted, upper-cased. */
  function Normalise(s: string): (r: string)
    ensures '-' !in r
    ensures forall k | 0 <= k < |r| :: !IsWhitespace(r[k]) && !IsLowerAscii(r[k])
  {
    var r := UpperCase(DeleteWhitespace(RemoveHyphens(s)));
    assert forall k | 0 <= k < |r| :: !IsWhitespace(r[k]) && r[k] != '-' by {
      UpperCaseKeepsNonWhitespace(DeleteWhitespace(RemoveHyphens(s)));
    }
    assert '-' !in r;
    r
  }

  /** Changing the case of a letter does not make it a separator, and undoes itself under ToUpper. */
  lemma ToUpperKeepsClass(c: char)
    ensures (ToUpper(c) == '-') == (c == '-') && IsWhitespace(ToUpper(c)) == IsWhitespace(c)
    ensures (ToLower(c) == '-') == (c == '-') && IsWhitespace(ToLower(c)) == IsWhitespace(c)
    ensures ToUpper(ToLower(c)) == ToUpper(c)
  {
  }

  /** The normal form of a single character. */
  lemma NormaliseChar(c: char)
    ensures Normalise([c]) == if c == '-' || IsWhitespace(c) then [] else [ToUpper(c)]
  {
    assert [c][1..] == [];
    if c == '-' {
      assert RemoveHyphens([c]) == [];
    } else {
      assert RemoveHyphens([c]) == [c];
      if IsWhitespace(c) {
        assert DeleteWhitespace([c]) == [];
      } else {
        assert DeleteWhitespace([c]) == [c];
      }
    }
  }

  lemma {:induction false} UpperCaseKeepsNonWhitespace(s: string)
    requires forall k | 0 <= k < |s| :: !IsWhitespace(s[k]) && s[k] != '-'
    ensures forall k | 0 <= k < |UpperCase(s)| :: !IsWhitespace(UpperCase(s)[k]) && UpperCase(s)[k] != '-'
  {
    if s != [] {
      UpperCaseKeepsNonWhitespace(s[1..]);
      var u := UpperCase(s);
      assert u == [ToUpper(s[0])] + UpperCase(s[1..]);
      forall k | 0 <= k < |u| ensures !IsWhitespace(u[k]) && u[k] != '-' {
        if k == 0 {
          ToUpperKeepsClass(s[0]);
        } else {
          assert u[k] == UpperCase(s[1..])[k - 1];
        }
      }
    }
  }

  lemma {:induction false} RemoveHyphensConcat(a: string, b: string)
    ensures RemoveHyphens(a + b) == RemoveHyphens(a) + RemoveHyphens(b)
  {
    if a == [] {
      assert a + b == b;
    } else {
      assert (a + b)[1..] == a[1..] + b;
      RemoveHyphensConcat(a[1..], b);
    }
  }

  lemma {:induction false} DeleteWhitespaceConcat(a: string, b: string)
    ensures DeleteWhitespace(a + b) == DeleteWhitespace(a) + DeleteWhitespace(b)
  {
    if a == [] {
      assert a + b == b;
    } else {
      assert (a + b)[1..] == a[1..] + b;
      DeleteWhitespaceConcat(a[1..], b);
    }
  }

  lemma {:induction false} UpperCaseConcat(a: string, b: string)
    ensures UpperCase(a + b) == UpperCase(a) + UpperCase(b)
  {
    if a == [] {
      assert a + b == b;
    } else {
      assert (a + b)[1..] == a[1..] + b;
      UpperCaseConcat(a[1..], b);
    }
  }

  /** Normalisation works character by character: it distributes over concatenation. */
  lemma NormaliseConcat(a: string, b: string)
    ensures Normalise(a + b) == Normalise(a) + Normalise(b)
  {
    RemoveHyphensConcat(a, b);
    DeleteWhitespaceConcat(RemoveHyphens(a), RemoveHyphens(b));
    UpperCaseConcat(DeleteWhitespace(RemoveHyphens(a)), DeleteWhitespace(RemoveHyphens(b)));
  }

  /** A hyphen or a whitespace character anywhere in a name makes no difference. */
  lemma NormaliseIgnoresSeparator(a: string, c: char, b: string)
    requires c == '-' || IsWhitespace(c)
    ensures Normalise(a + [c] + b) == Normalise(a + b)
  {
    NormaliseConcat(a + [c], b);
    NormaliseConcat(a, [c]);
    NormaliseConcat(a, b);
    NormaliseChar(c);
    assert Normalise(a) + [] == Normalise(a);
  }

  /** Lower-casing the ASCII letters of a name makes no difference. */
  lemma {:induction false} NormaliseIgnoresCase(s: string)
    ensures Normalise(LowerCase(s)) == Normalise(s)
  {
    if s != [] {
      var c := s[0];
      assert s == [c] + s[1..];
      assert LowerCase(s) == [ToLower(c)] + LowerCase(s[1..]);
      NormaliseConcat([c], s[1..]);
      NormaliseConcat([ToLower(c)], LowerCase(s[1..]));
      NormaliseIgnoresCase(s[1..]);
      NormaliseChar(c);
      NormaliseChar(ToLower(c));
      ToUpperKeepsClass(c);
    }
  }

  /**
   * erAkseptabelForPrint: a present name whose normal form contains one of the supported
   * names. A missing name is never acceptable.
   */
  predicate IsAcceptableForPrint(name: Option<string>)
    ensures name.None? ==> !IsAcceptableForPrint(name)
  {
    name.Some? && exists supported | supported in SupportedFonts :: Contains(Normalise(name.value), supported)
  }

  /** Any name that has an acceptable name inside it is acceptable too. */
  lemma AcceptableSuperstring(pre: string, name: string, post: string)
    requires IsAcceptableForPrint(Some(name))
    ensures IsAcceptableForPrint(Some(pre + name + post))
  {
    var supported :| supported in SupportedFonts && Contains(Normalise(name), supported);
    NormaliseConcat(pre + name, post);
    NormaliseConcat(pre, name);
    ContainsInContext(Normalise(pre), Normalise(name), Normalise(post), supported);
  }

  /** Hyphens, whitespace and letter case do not change the verdict on a name. */
  lemma AcceptableIgnoresSeparatorsAndCase(a: string, c: char, b: string)
    requires c == '-' || IsWhitespace(c)
    ensures IsAcceptableForPrint(Some(a + [c] + b)) == IsAcceptableForPrint(Some(a + b))
    ensures IsAcceptableForPrint(Some(LowerCase(a))) == IsAcceptableForPrint(Some(a))
  {
    NormaliseIgnoresSeparator(a, c, b);
    NormaliseIgnoresCase(a);
  }

  predicate IsUpperAscii(c: char) { 'A' <= c <= 'Z' }

  /** A name made of capital letters only is its own normal form. */
  lemma {:induction false} NormaliseCapitals(s: string)
    requires forall k | 0 <= k < |s| :: IsUpperAscii(s[k])
    ensures Normalise(s) == s
  {
    if s != [] {
      var rest := s[1..];
      assert forall k | 0 <= k < |rest| :: IsUpperAscii(rest[k]) by {
        forall k | 0 <= k < |rest| ensures IsUpperAscii(rest[k]) { assert rest[k] == s[k + 1]; }
      }
      NormaliseCapitals(rest);
      NormaliseCapital(s[0]);
      NormaliseConcat([s[0]], rest);
      assert s == [s[0]] + rest;
    }
  }

  /** A capital letter is its own normal form. */
  lemma NormaliseCapital(c: char)
    requires IsUpperAscii(c)
    ensures Normalise([c]) == [c]
  {
    NormaliseChar(c);
  }

  /** Every supported name is accepted on its own, and so is its lower-case spelling. */
  lemma SupportedNamesAccepted(supported: string)
    requires supported in SupportedFonts
    ensures IsAcceptableForPrint(Some(supported))
    ensures IsAcceptableForPrint(Some(LowerCase(supported)))
  {
    assert forall k | 0 <= k < |supported| :: IsUpperAscii(supported[k]);
    NormaliseCapitals(supported);
    ContainsSelf(supported);
    NormaliseIgnoresCase(supported);
  }

  /** harIkkeEmbeddedFont: none of FontFile, FontFile2, FontFile3 is present. */
  predicate HasNoEmbeddedFont(d: FontDescriptor) {
    !d.hasFontFile && !d.hasFontFile2 && !d.hasFontFile3
  }

  /** erFontDescriptorAkseptabelForPrint: embedded programs pass; otherwise the descriptor's name decides. */
  predicate IsFontDescriptorAcceptableForPrint(d: FontDescriptor)
    ensures !HasNoEmbeddedFont(d) ==> IsFontDescriptorAcceptableForPrint(d)
    ensures HasNoEmbeddedFont(d) ==> (IsFontDescriptorAcceptableForPrint(d) <==> IsAcceptableForPrint(d.fontName))
  {
    if HasNoEmbeddedFont(d) then IsAcceptableForPrint(d.fontName) else true
  }

  /** The per-font decision of findNonSupportedFonts. */
  predicate IsSupported(f: Font)
    ensures f.damaged ==> !IsSupported(f)
    ensures !f.damaged && f.descriptor.Some? && !HasNoEmbeddedFont(f.descriptor.value) ==> IsSupported(f)
    ensures !f.damaged && f.descriptor.Some? && HasNoEmbeddedFont(f.descriptor.value) ==>
      (IsSupported(f) <==> IsAcceptableForPrint(f.descriptor.value.fontName))
    ensures !f.damaged && f.descriptor.None? ==> (IsSupported(f) <==> f.isType0 || IsAcceptableForPrint(f.name))
  {
    if f.damaged then false
    else match f.descriptor
      case Some(d) => IsFontDescriptorAcceptableForPrint(d)
      case None => f.isType0 || IsAcceptableForPrint(f.name)
  }

  /** The unsupported fonts of a list, in list order. */
  function NonSupported(fonts: seq<Font>): seq<Font> {
    if fonts == [] then []
    else
      var last := fonts[|fonts| - 1];
      NonSupported(fonts[..|fonts| - 1]) + (if IsSupported(last) then [] else [last])
  }

  /** Exactly the rejected fonts are reported. */
  lemma {:induction false} NonSupportedMembers(fonts: seq<Font>, f: Font)
    ensures f in NonSupported(fonts) <==> f in fonts && !IsSupported(f)
  {
    if fonts != [] {
      var init := fonts[..|fonts| - 1];
      NonSupportedMembers(init, f);
      assert fonts == init + [fonts[|fonts| - 1]];
    }
  }

  /** Reporting keeps input order: the report of a concatenation is the concatenation of reports. */
  lemma {:induction false} NonSupportedConcat(a: seq<Font>, b: seq<Font>)
    ensures NonSupported(a + b) == NonSupported(a) + NonSupported(b)
    decreases |b|
  {
    if b == [] {
      assert a + b == a;
    } else {
      var init := b[..|b| - 1];
      assert (a + b)[..|a + b| - 1] == a + init;
      NonSupportedConcat(a, init);
    }
  }

  /** The report is empty exactly when every font is supported. */
  lemma NonSupportedEmptyIff(fonts: seq<Font>)
    ensures NonSupported(fonts) == [] <==> forall k | 0 <= k < |fonts| :: IsSupported(fonts[k])
  {
    if NonSupported(fonts) == [] {
      forall k | 0 <= k < |fonts| ensures IsSupported(fonts[k]) {
        NonSupportedMembers(fonts, fonts[k]);
      }
    } else {
      var f := NonSupported(fonts)[0];
      NonSupportedMembers(fonts, f);
    }
  }

  /** findNonSupportedFonts: walk the fonts once, collecting the rejected ones. */
  method FindNonSupportedFonts(fonts: seq<Font>) returns (nonSupported: seq<Font>)
    ensures nonSupported == NonSupported(fonts)
    ensures forall f :: f in nonSupported <==> f in fonts && !IsSupported(f)
  {
    nonSupported := [];
    var i := 0;
    while i < |fonts|
      invariant 0 <= i <= |fonts|
      invariant nonSupported == NonSupported(fonts[..i])
    {
      var font := fonts[i];
      assert fonts[..i + 1][..i] == fonts[..i];
      if font.damaged {
        nonSupported := nonSupported + [font];
      } else {
        match font.descriptor {
          case Some(fontDescriptor) =>
            if !IsFontDescriptorAcceptableForPrint(fontDescriptor) {
              nonSupported := nonSupported + [font];
            }
          case None =>
            if !font.isType0 {
              if !IsAcceptableForPrint(font.name) {
                nonSupported := nonSupported + [font];
              }
            }
        }
      }
      i := i + 1;
    }
    assert fonts[..i] == fonts;
    forall f ensures f in nonSupported <==> f in fonts && !IsSupported(f) {
      NonSupportedMembers(fonts, f);
    }
  }

  /**
   * The font entries of a page's resource dictionary, in resource-name order; `None` is an
   * entry that cannot be resolved to a font (the lookup throws).
   */
  datatype PageResources = NoResources | Resources(entries: seq<Option<Font>>)

  /** Resolve entries in order into an insertion-ordered set; `None` when a lookup fails. */
  function ResolveFonts(entries: seq<Option<Font>>): Option<seq<Font>> {
    if entries == [] then Some([])
    else match ResolveFonts(entries[..|entries| - 1])
      case None => None
      case Some(fonts) =>
        match entries[|entries| - 1]
        case None => None
        case Some(f) => Some(if f in fonts then fonts else fonts + [f])
  }

  predicate Distinct(fonts: seq<Font>) {
    forall i, j | 0 <= i < j < |fonts| :: fonts[i] != fonts[j]
  }

  /** The position of the first occurrence of `x` in `xs`. */
  function FirstIndex<T(==)>(xs: seq<T>, x: T): (k: nat)
    requires x in xs
    ensures k < |xs| && xs[k] == x && x !in xs[..k]
  {
    if xs[0] == x then 0
    else
      var k := FirstIndex(xs[1..], x);
      assert xs[..k + 1] == [xs[0]] + xs[1..][..k];
      k + 1
  }

  /** An occurrence with none before it is the first one. */
  lemma FirstIndexUnique<T>(xs: seq<T>, x: T, k: nat)
    requires k < |xs| && xs[k] == x && x !in xs[..k]
    ensures FirstIndex(xs, x) == k
  {
  }

  /**
   * Resolution fails exactly on a bad entry; otherwise it yields each font once, exactly the
   * fonts of the entries, in the order of their first entries (the LinkedHashSet's order).
   */
  lemma {:induction false} ResolveFontsSpec(entries: seq<Option<Font>>)
    ensures ResolveFonts(entries).None? <==> None in entries
    ensures ResolveFonts(entries).Some? ==> Distinct(ResolveFonts(entries).value)
    ensures ResolveFonts(entries).Some? ==>
      forall f :: f in ResolveFonts(entries).value <==> Some(f) in entries
    ensures ResolveFonts(entries).Some? ==>
      var r := ResolveFonts(entries).value;
      forall i, j | 0 <= i < j < |r| :: FirstIndex(entries, Some(r[i])) < FirstIndex(entries, Some(r[j]))
  {
    if entries != [] {
      var init := entries[..|entries| - 1];
      var last := entries[|entries| - 1];
      ResolveFontsSpec(init);
      assert entries == init + [last];
      if ResolveFonts(entries).Some? {
        ResolveFontsOrderStep(init, last.value, ResolveFonts(init).value);
      }
    }
  }

  /** Adding one entry keeps the first-entry order of the fonts already resolved. */
  lemma ResolveFontsOrderStep(init: seq<Option<Font>>, f: Font, fonts: seq<Font>)
    requires forall g :: g in fonts <==> Some(g) in init
    requires forall i, j | 0 <= i < j < |fonts| :: FirstIndex(init, Some(fonts[i])) < FirstIndex(init, Some(fonts[j]))
    ensures var r := if f in fonts then fonts else fonts + [f];
      forall i, j | 0 <= i < j < |r| ::
        FirstIndex(init + [Some(f)], Some(r[i])) < FirstIndex(init + [Some(f)], Some(r[j]))
  {
    var entries := init + [Some(f)];
    forall g | g in fonts ensures FirstIndex(entries, Some(g)) == FirstIndex(init, Some(g)) {
      var k := FirstIndex(init, Some(g));
      assert entries[..k] == init[..k];
      FirstIndexUnique(entries, Some(g), k);
    }
    if f !in fonts {
      assert entries[..|init|] == init;
      FirstIndexUnique(entries, Some(f), |init|);
      var r := fonts + [f];
      forall i, j | 0 <= i < j < |r|
        ensures FirstIndex(entries, Some(r[i])) < FirstIndex(entries, Some(r[j]))
      {
        assert r[i] == fonts[i];
        if j < |fonts| {
          assert r[j] == fonts[j];
        }
      }
    }
  }

  /** getPageFonts as a value: no resources means no fonts. */
  function PageFonts(res: PageResources): (r: Option<seq<Font>>)
    ensures res.NoResources? ==> r == Some([])
  {
    match res
    case NoResources => Some([])
    case Resources(entries) => ResolveFonts(entries)
  }

  /** getPageFonts: fill a LinkedHashSet from the resource entries. `failed` is a thrown lookup. */
  method GetPageFonts(res: PageResources) returns (fonts: seq<Font>, failed: bool)
    ensures failed <==> PageFonts(res).None?
    ensures !failed ==> fonts == PageFonts(res).value && Distinct(fonts)
  {
    fonts, failed := [], false;
    match res {
      case NoResources =>
      case Resources(entries) =>
        var i := 0;
        while i < |entries|
          invariant 0 <= i <= |entries|
          invariant ResolveFonts(entries[..i]) == Some(fonts)
        {
          assert entries[..i + 1][..i] == entries[..i];
          match entries[i] {
            case None =>
              failed := true;
              assert ResolveFonts(entries[..i + 1]).None?;
              ResolveFontsSpec(entries[..i + 1]);
              ResolveFontsSpec(entries);
              assert None in entries[..i + 1];
              return;
            case Some(font) =>
              if font !in fonts {
                fonts := fonts + [font];
              }
          }
          i := i + 1;
        }
        assert entries[..i] == entries;
        ResolveFontsSpec(entries);
    }
  }

  /** De-duplication does not change whether a page has an unsupported font. */
  lemma PageHasUnsupportedFont(entries: seq<Option<Font>>)
    requires ResolveFonts(entries).Some?
    ensures NonSupported(ResolveFonts(entries).value) != [] <==>
      exists k | 0 <= k < |entries| :: entries[k].Some? && !IsSupported(entries[k].value)
  {
    ResolveFontsSpec(entries);
    if NonSupported(ResolveFonts(entries).value) != [] {
      RejectedFontHasEntry(entries, ResolveFonts(entries).value);
    } else {
      EntriesSupported(entries, ResolveFonts(entries).value);
    }
  }

  /** A rejected resolved font comes from some entry. */
  lemma RejectedFontHasEntry(entries: seq<Option<Font>>, fonts: seq<Font>)
    requires forall f :: f in fonts <==> Some(f) in entries
    requires NonSupported(fonts) != []
    ensures exists k | 0 <= k < |entries| :: entries[k].Some? && !IsSupported(entries[k].value)
  {
    var f := NonSupported(fonts)[0];
    NonSupportedMembers(fonts, f);
    assert Some(f) in entries;
    var j :| 0 <= j < |entries| && entries[j] == Some(f);
  }

  /** When no resolved font is rejected, no entry is. */
  lemma EntriesSupported(entries: seq<Option<Font>>, fonts: seq<Font>)
    requires forall f :: f in fonts <==> Some(f) in entries
    requires NonSupported(fonts) == []
    ensures forall k | 0 <= k < |entries| && entries[k].Some? :: IsSupported(entries[k].value)
  {
    forall k | 0 <= k < |entries| && entries[k].Some? ensures IsSupported(entries[k].value) {
      var f := entries[k].value;
      assert Some(f) in entries;
      NonSupportedMembers(fonts, f);
    }
  }
}
