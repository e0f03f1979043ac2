/**
 * Canonicalising free-text language labels scraped from episode pages
 * (`LANGUAGE_MAP` and `normalizeLanguage`): lowercase, trim, look the result
 * up in a fixed twelve-entry table, and fall back to the label itself with the
 * undetermined code "und" on a miss.
 */
module Language {
  import opened JsText

  datatype LanguageInfo = LanguageInfo(name: string, code: string, isDub: bool)

  /** The fixed table, keyed by the lowercased, trimmed label. */
  const LanguageMap: map<string, LanguageInfo> := map[
    "hindi" := LanguageInfo("Hindi", "hi", true),
    "tamil" := LanguageInfo("Tamil", "ta", true),
    "telugu" := LanguageInfo("Telugu", "te", true),
    "malayalam" := LanguageInfo("Malayalam", "ml", true),
    "bengali" := LanguageInfo("Bengali", "bn", true),
    "marathi" := LanguageInfo("Marathi", "mr", true),
    "kannada" := LanguageInfo("Kannada", "kn", true),
    "english" := LanguageInfo("English", "en", true),
    "japanese" := LanguageInfo("Japanese", "ja", false),
    "korean" := LanguageInfo("Korean", "ko", true),
    "chinese" := LanguageInfo("Chinese", "zh", true),
    "und" := LanguageInfo("Unknown", "und", false)
  ]

  /** Every code the normaliser can produce. */
  const KnownCodes: set<string> := {"hi", "ta", "te", "ml", "bn", "mr", "kn", "en", "ja", "ko", "zh", "und"}

  /** The lookup key: `lang.toLowerCase().trim()`. */
  function LookupKey(lang: string): string {
    Trim(ToLower(lang))
  }

  /**
   * A lookup key is already in normal form: trimmed, lower case, and its own
   * lookup key.
   */
  lemma LookupKeyIsNormal(lang: string)
    ensures IsTrimmed(LookupKey(lang))
    ensures ToLower(LookupKey(lang)) == LookupKey(lang)
    ensures LookupKey(LookupKey(lang)) == LookupKey(lang)
  {
    var t := ToLower(lang);
    var key := Trim(t);
    LoweredIsLower(lang);
    TrimStaysLower(t);
    LowerIsFixed(key);
    assert key == [] + key + [];
    TrimPadded([], key, []);
  }

  predicate IsLower(s: string) {
    forall i :: 0 <= i < |s| ==> LowerChar(s[i]) == s[i]
  }

  lemma LoweredIsLower(s: string)
    ensures IsLower(ToLower(s))
  {
  }

  lemma TrimStaysLower(t: string)
    requires IsLower(t)
    ensures IsLower(Trim(t))
  {
    var a := SkipLeading(t, 0);
    var b := SkipTrailing(t, a, |t|);
    SliceStaysLower(t, a, b);
  }

  lemma SliceStaysLower(t: string, a: nat, b: nat)
    requires IsLower(t) && a <= b <= |t|
    ensures IsLower(t[a..b])
  {
    forall i | 0 <= i < b - a
      ensures LowerChar(t[a..b][i]) == t[a..b][i]
    {
      assert t[a..b][i] == t[a + i];
    }
  }

  lemma LowerIsFixed(s: string)
    requires IsLower(s)
    ensures ToLower(s) == s
  {
  }

  /**
   * `normalizeLanguage`. Total: a table hit gives the table entry; a miss
   * keeps the caller's untrimmed text as the name, uses the code "und", and is
   * a dub unless the key is "japanese" or "jpn".
   */
  function NormalizeLanguage(lang: string): (r: LanguageInfo)
    ensures LookupKey(lang) in LanguageMap ==> r == LanguageMap[LookupKey(lang)]
    ensures LookupKey(lang) !in LanguageMap ==> r.name == lang && r.code == "und"
    ensures r.code in KnownCodes
    ensures r.code == "und" <==> LookupKey(lang) !in LanguageMap || LookupKey(lang) == "und"
    ensures !r.isDub <==> LookupKey(lang) == "japanese" || LookupKey(lang) == "jpn" || LookupKey(lang) == "und"
  {
    var key := LookupKey(lang);
    TableFacts();
    if key in LanguageMap then LanguageMap[key]
    else LanguageInfo(lang, "und", key != "japanese" && key != "jpn")
  }

  /** What the table's entries have in common, entry by entry. */
  lemma TableFacts()
    ensures "japanese" in LanguageMap && "und" in LanguageMap && "jpn" !in LanguageMap
    ensures forall k :: k in LanguageMap ==> LanguageMap[k].code in KnownCodes
    ensures forall k :: k in LanguageMap ==> (LanguageMap[k].code == "und" <==> k == "und")
    ensures forall k :: k in LanguageMap ==> (!LanguageMap[k].isDub <==> k == "und" || k == "japanese")
  {
  }

  /**
   * The lookup key of a lower-case, trimmed word spelled in any letter case and
   * padded with white space is the word itself.
   */
  lemma LookupKeyOfPadded(word: string, spelled: string, before: string, after: string)
    requires IsTrimmed(word) && forall i :: 0 <= i < |word| ==> LowerChar(word[i]) == word[i]
    requires ToLower(spelled) == word
    requires AllTrimmable(before) && AllTrimmable(after)
    ensures LookupKey(before + spelled + after) == word
  {
    ToLowerConcat(before + spelled, after);
    ToLowerConcat(before, spelled);
    assert ToLower(before) == before by {
      forall i | 0 <= i < |before| ensures ToLower(before)[i] == before[i] {
        assert IsTrimmable(before[i]);
      }
    }
    assert ToLower(after) == after by {
      forall i | 0 <= i < |after| ensures ToLower(after)[i] == after[i] {
        assert IsTrimmable(after[i]);
      }
    }
    TrimPadded(before, word, after);
  }

  /**
   * A table key matches whatever its letters' case and whatever white space
   * surrounds it: `" HINDI "` is Hindi.
   */
  lemma TableHitIgnoresCaseAndPadding(key: string, spelled: string, before: string, after: string)
    requires key in LanguageMap
    requires SameLetters(spelled, key)
    requires AllTrimmable(before) && AllTrimmable(after)
    ensures NormalizeLanguage(before + spelled + after) == LanguageMap[key]
  {
    KeyIsLowerAndTrimmed(key);
    assert ToLower(spelled) == key;
    LookupKeyOfPadded(key, spelled, before, after);
  }

  /** A non-empty run of ASCII lower-case letters, as every key is. */
  predicate IsLowerWord(w: string) {
    |w| > 0 && forall i :: 0 <= i < |w| ==> 'a' <= w[i] <= 'z'
  }

  /** `name` is `key` with its first letter in upper case. */
  predicate Capitalises(name: string, key: string) {
    |name| == |key| > 0 && LowerChar(name[0]) == key[0] && forall i :: 1 <= i < |key| ==> name[i] == key[i]
  }

  lemma LowerWordIsLookupKey(w: string)
    requires IsLowerWord(w)
    ensures IsTrimmed(w) && forall i :: 0 <= i < |w| ==> LowerChar(w[i]) == w[i]
  {
    assert !IsTrimmable(w[0]) && !IsTrimmable(w[|w| - 1]);
  }

  lemma CapitalisedLowers(name: string, key: string)
    requires Capitalises(name, key) && IsLowerWord(key)
    ensures ToLower(name) == key
  {
    assert forall i :: 0 <= i < |key| ==> ToLower(name)[i] == key[i];
  }

  lemma KeyIsLowerWord(key: string)
    requires key in LanguageMap
    ensures IsLowerWord(key)
  {
    if key == "hindi" {
    } else if key == "tamil" {
    } else if key == "telugu" {
    } else if key == "malayalam" {
    } else if key == "bengali" {
    } else if key == "marathi" {
    } else if key == "kannada" {
    } else if key == "english" {
    } else if key == "japanese" {
    } else if key == "korean" {
    } else if key == "chinese" {
    } else {
    }
  }

  lemma NameCapitalisesKey(key: string)
    requires key in LanguageMap && key != "und"
    ensures Capitalises(LanguageMap[key].name, key)
  {
    if key == "hindi" || key == "tamil" || key == "telugu" || key == "malayalam" || key == "bengali" {
      IndianNamesCapitalise(key);
    } else {
      OtherNamesCapitalise(key);
    }
  }

  lemma IndianNamesCapitalise(key: string)
    requires key == "hindi" || key == "tamil" || key == "telugu" || key == "malayalam" || key == "bengali"
    ensures key in LanguageMap && Capitalises(LanguageMap[key].name, key)
  {
    if key == "hindi" {
    } else if key == "tamil" {
    } else if key == "telugu" {
    } else if key == "malayalam" {
    } else {
    }
  }

  lemma OtherNamesCapitalise(key: string)
    requires key in LanguageMap && key != "und"
    requires key != "hindi" && key != "tamil" && key != "telugu" && key != "malayalam" && key != "bengali"
    ensures Capitalises(LanguageMap[key].name, key)
  {
    if key == "marathi" {
    } else if key == "kannada" {
    } else if key == "english" {
    } else if key == "japanese" {
    } else if key == "korean" {
    } else {
    }
  }

  lemma KeyIsLowerAndTrimmed(key: string)
    requires key in LanguageMap
    ensures IsTrimmed(key) && forall i :: 0 <= i < |key| ==> LowerChar(key[i]) == key[i]
  {
    KeyIsLowerWord(key);
    LowerWordIsLookupKey(key);
  }

  lemma NameSpellsKey(key: string)
    requires key in LanguageMap && key != "und"
    ensures ToLower(LanguageMap[key].name) == key
  {
    KeyIsLowerWord(key);
    NameCapitalisesKey(key);
    CapitalisedLowers(LanguageMap[key].name, key);
  }

  /**
   * Feeding a result's name back in gives the same result, except for the
   * table's own "und" entry, whose name "Unknown" is not a key (and so comes
   * back as a dub).
   */
  lemma NameIsStable(lang: string)
    ensures NormalizeLanguage(NormalizeLanguage(lang).name) == NormalizeLanguage(lang)
            <==> LookupKey(lang) != "und"
  {
    var key := LookupKey(lang);
    if key == "und" {
      UnknownNameIsUnmapped();
    } else if key in LanguageMap {
      CapitalisedNameLooksUpItsKey(key);
    }
  }

  lemma UnknownNameIsUnmapped()
    ensures NormalizeLanguage("Unknown") == LanguageInfo("Unknown", "und", true)
  {
    UnknownKey();
    Unmapped("Unknown", "unknown");
  }

  lemma UnknownKey()
    ensures LookupKey("Unknown") == "unknown"
  {
    assert "Unknown" == [] + "Unknown" + [];
    assert IsLowerWord("unknown") && Capitalises("Unknown", "unknown");
    LowerWordIsLookupKey("unknown");
    CapitalisedLowers("Unknown", "unknown");
    LookupKeyOfPadded("unknown", "Unknown", [], []);
  }

  /** Each display name other than "Unknown" is its key with a capital. */
  lemma CapitalisedNameLooksUpItsKey(key: string)
    requires key in LanguageMap && key != "und"
    ensures LookupKey(LanguageMap[key].name) == key
  {
    var name := LanguageMap[key].name;
    KeyIsLowerAndTrimmed(key);
    NameSpellsKey(key);
    assert ToLower(name) == key;
    assert name == [] + name + [];
    LookupKeyOfPadded(key, name, [], []);
  }

  /** A miss: `name` is the caller's text, the code is "und". */
  lemma Unmapped(lang: string, key: string)
    requires LookupKey(lang) == key && key !in LanguageMap
    ensures NormalizeLanguage(lang) == LanguageInfo(lang, "und", key != "japanese" && key != "jpn")
  {
  }

  lemma PaddedUppercaseHindi()
    ensures NormalizeLanguage(" HINDI ") == LanguageInfo("Hindi", "hi", true)
  {
    HindiKey();
  }

  lemma HindiKey()
    ensures LookupKey(" HINDI ") == "hindi"
  {
    assert " HINDI " == " " + "HINDI" + " ";
    LookupKeyOfPadded("hindi", "HINDI", " ", " ");
  }

  lemma JapaneseIsNotADub()
    ensures NormalizeLanguage("japanese") == LanguageInfo("Japanese", "ja", false)
  {
    JapaneseKey();
  }

  lemma JapaneseKey()
    ensures LookupKey("japanese") == "japanese"
  {
    assert "japanese" == [] + "japanese" + [];
    LookupKeyOfPadded("japanese", "japanese", [], []);
  }

  /**
   * The KELVIN SIGN lowercases to `k`, so a label spelled with it in place of
   * the first letter still finds its entry.
   */
  lemma KelvinSignIsK(lang: string)
    requires lang == [Kelvin] + "orean"
    ensures NormalizeLanguage(lang) == LanguageInfo("Korean", "ko", true)
  {
    assert SameLetters(lang, "korean");
    assert lang == [] + lang + [];
    TableHitIgnoresCaseAndPadding("korean", lang, [], []);
  }

  /** Unmapped labels keep their own text as the name and are "und". */
  lemma UnmappedLabels()
    ensures NormalizeLanguage("Klingon") == LanguageInfo("Klingon", "und", true)
    ensures NormalizeLanguage(" JPN") == LanguageInfo(" JPN", "und", false)
  {
    KlingonKey();
    Unmapped("Klingon", "klingon");
    JpnKey();
    Unmapped(" JPN", "jpn");
  }

  lemma KlingonKey()
    ensures LookupKey("Klingon") == "klingon"
  {
    assert "Klingon" == [] + "Klingon" + [];
    assert IsLowerWord("klingon") && Capitalises("Klingon", "klingon");
    LowerWordIsLookupKey("klingon");
    CapitalisedLowers("Klingon", "klingon");
    LookupKeyOfPadded("klingon", "Klingon", [], []);
  }

  lemma JpnKey()
    ensures LookupKey(" JPN") == "jpn"
  {
    assert " JPN" == " " + "JPN" + [];
    LookupKeyOfPadded("jpn", "JPN", " ", []);
  }
}
