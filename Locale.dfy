/** The locale week-start resolver. A locale tag is read with one fixed,
    case-insensitive pattern anchored at the start of the tag: a language of
    2-3 letters, then an optional 3-letter extended language, an optional
    4-letter script and an optional region of 2 letters or 3 digits, each
    optional subtag introduced by '-' and followed by the end of the tag or
    another '-'. The captured region, or when there is none the captured
    language, is then looked up in four fixed lists. */
module Locale {
  import opened Wrappers

  /** The day a week starts on. */
  datatype FirstDay = Sun | Sat | Mon

  /** The capture groups of the pattern: 1 language, 2 extlang, 3 script, 4 region. */
  datatype LocaleParts = LocaleParts(
    language: string, extlang: Option<string>, script: Option<string>, region: Option<string>)

  /** `[a-z]` under the case-insensitive flag: an ASCII letter of either case. */
  predicate IsLetter(c: char) {
    'a' <= c <= 'z' || 'A' <= c <= 'Z'
  }

  /** `\d`: an ASCII digit. */
  predicate IsDigit(c: char) {
    '0' <= c <= '9'
  }

  datatype CharClass = Letters | Digits

  predicate InClass(c: char, k: CharClass) {
    match k
    case Letters => IsLetter(c)
    case Digits => IsDigit(c)
  }

  predicate AllIn(t: string, k: CharClass) {
    forall i :: 0 <= i < |t| ==> InClass(t[i], k)
  }

  /** The pattern matches exactly the tags that begin with two letters. */
  predicate StartsWithLanguage(s: string) {
    |s| >= 2 && IsLetter(s[0]) && IsLetter(s[1])
  }

  /** Length of the greedy `[a-z]{2,3}` at the start of s; 0 when it does not match. */
  function LanguageLength(s: string): (n: nat)
    ensures n <= |s|
    ensures n == 0 <==> !StartsWithLanguage(s)
    ensures n != 0 ==> (n == 2 || n == 3) && AllIn(s[..n], Letters)
    ensures n == 2 ==> |s| == 2 || !IsLetter(s[2])
  {
    if !StartsWithLanguage(s) then 0
    else if |s| >= 3 && IsLetter(s[2]) then 3
    else 2
  }

  /** The group `(?:-(X{len})(?=$|-))?` tried at position pos: the captured
      subtag when '-', len characters of class k and then the end of the tag or
      a '-' follow; None when the group is skipped. */
  function Subtag(s: string, pos: nat, len: nat, k: CharClass): (r: Option<string>)
    requires pos <= |s|
    ensures r.Some? <==>
      pos + 1 + len <= |s| && s[pos] == '-' && AllIn(s[pos + 1..pos + 1 + len], k)
      && (pos + 1 + len == |s| || s[pos + 1 + len] == '-')
    ensures r.Some? ==> r.value == s[pos + 1..pos + 1 + len]
  {
    var end := pos + 1 + len;
    if end <= |s| && s[pos] == '-' && AllIn(s[pos + 1..end], k) && (end == |s| || s[end] == '-')
    then Some(s[pos + 1..end])
    else None
  }

  /** The position after an optional group: past '-' and the subtag when it was captured. */
  function After(pos: nat, t: Option<string>): nat {
    match t
    case Some(v) => pos + 1 + |v|
    case None => pos
  }

  /** The first match of the pattern at the start of s. Every group after the
      language is optional and nothing follows the last one, so the match takes
      the longest language and then each optional group that fits, in order. */
  function MatchLocale(s: string): (r: Option<LocaleParts>)
    ensures r.Some? <==> StartsWithLanguage(s)
  {
    var n := LanguageLength(s);
    if n == 0 then None
    else
      var extlang := Subtag(s, n, 3, Letters);
      var p1 := After(n, extlang);
      var script := Subtag(s, p1, 4, Letters);
      var p2 := After(p1, script);
      var region := if Subtag(s, p2, 2, Letters).Some? then Subtag(s, p2, 2, Letters) else Subtag(s, p2, 3, Digits);
      Some(LocaleParts(s[..n], extlang, script, region))
  }

  // ---------------------------------------------------------------------------
  // The shape of a match, and rendering it back to a tag

  predicate OptionalSubtag(t: Option<string>, len: nat, k: CharClass) {
    t.Some? ==> |t.value| == len && AllIn(t.value, k)
  }

  /** Parts the pattern can capture. */
  predicate WellFormed(p: LocaleParts) {
    && (|p.language| == 2 || |p.language| == 3)
    && AllIn(p.language, Letters)
    && OptionalSubtag(p.extlang, 3, Letters)
    && OptionalSubtag(p.script, 4, Letters)
    && (OptionalSubtag(p.region, 2, Letters) || OptionalSubtag(p.region, 3, Digits))
  }

  function Dashed(t: Option<string>): string {
    match t
    case Some(v) => "-" + v
    case None => ""
  }

  /** The text a match covers: the captured subtags joined by '-'. */
  function Render(p: LocaleParts): string {
    p.language + Dashed(p.extlang) + Dashed(p.script) + Dashed(p.region)
  }

  // ---------------------------------------------------------------------------
  // The fixed lists, as the 2-character chunks of the source's strings

  const RegionSat: seq<string> :=
    ["AE", "AF", "BH", "DJ", "DZ", "EG", "IQ", "IR", "JO", "KW", "LY", "OM", "QA", "SD", "SY"]

  const RegionSun: seq<string> := RegionSun1 + RegionSun2 + RegionSun3 + RegionSun4

  const RegionSun1: seq<string> :=
    ["AG", "AR", "AS", "AU", "BD", "BR", "BS", "BT", "BW", "BZ", "CA", "CN", "CO", "DM", "DO"]
  const RegionSun2: seq<string> :=
    ["ET", "GT", "GU", "HK", "HN", "ID", "IL", "IN", "JM", "JP", "KE", "KH", "KR", "LA", "MH"]
  const RegionSun3: seq<string> :=
    ["MM", "MO", "MT", "MX", "MZ", "NI", "NP", "PA", "PE", "PH", "PK", "PR", "PT", "PY", "SA"]
  const RegionSun4: seq<string> :=
    ["SG", "SV", "TH", "TT", "TW", "UM", "US", "VE", "VI", "WS", "YE", "ZA", "ZW"]

  const LanguageSat: seq<string> := ["ar", "arq", "arz", "fa"]

  const LanguageSun: seq<string> :=
    ["am", "as", "bn", "dz", "en", "gn", "gu", "he", "hi", "id", "ja", "jv", "km", "kn", "ko"] +
    ["lo", "mh", "ml", "mr", "mt", "my", "ne", "om", "or", "pa", "ps", "sd", "sm", "sn", "su"] +
    ["ta", "te", "th", "tn", "ur", "zh", "zu"]

  /** The week start of a locale tag. The pattern must match (the tag must begin
      with two letters); a captured region alone decides, and only without a
      region does the language decide. Membership is exact, so case matters. */
  function WeekStart(locale: string): FirstDay
    requires StartsWithLanguage(locale)
  {
    var parts := MatchLocale(locale).value;
    match parts.region
    case Some(region) =>
      if region in RegionSun then Sun
      else if region in RegionSat then Sat
      else Mon
    case None =>
      if parts.language in LanguageSun then Sun
      else if parts.language in LanguageSat then Sat
      else Mon
  }

  // ---------------------------------------------------------------------------
  // Lemmas

  /** The decision order: a captured region is looked up in the Sunday list and
      then the Saturday list; only without a region is the language looked up in
      the same order; anything not found gives Monday. */
  lemma WeekStartDecision(locale: string)
    requires StartsWithLanguage(locale)
    ensures var parts := MatchLocale(locale).value;
      var key := if parts.region.Some? then parts.region.value else parts.language;
      var sun := if parts.region.Some? then RegionSun else LanguageSun;
      var sat := if parts.region.Some? then RegionSat else LanguageSat;
      && (WeekStart(locale) == Sun <==> key in sun)
      && (WeekStart(locale) == Sat <==> key !in sun && key in sat)
      && (WeekStart(locale) == Mon <==> key !in sun && key !in sat)
  {
  }

  /** Language codes on the lists begin with two lower-case letters. */
  lemma LanguageCodesLower(c: string)
    requires c in LanguageSun || c in LanguageSat
    ensures |c| >= 2 && 'a' <= c[0] <= 'z' && 'a' <= c[1] <= 'z'
  {
  }

  /** Whether a subtag is taken depends only on the text from its position on. */
  lemma SubtagLocal(s: string, pos: nat, len: nat, k: CharClass)
    requires pos <= |s|
    ensures Subtag(s, pos, len, k) == Subtag(s[pos..], 0, len, k)
  {
    if pos + 1 + len <= |s| {
      assert s[pos + 1..pos + 1 + len] == s[pos..][1..1 + len];
    }
  }

  /** The text a match covers is where the optional groups left off. */
  lemma DashedAt(s: string, pos: nat, len: nat, k: CharClass)
    requires pos <= |s|
    ensures After(pos, Subtag(s, pos, len, k)) <= |s|
    ensures s[pos..After(pos, Subtag(s, pos, len, k))] == Dashed(Subtag(s, pos, len, k))
  {
    var t := Subtag(s, pos, len, k);
    if t.Some? {
      assert s[pos..pos + 1 + len] == [s[pos]] + s[pos + 1..pos + 1 + len];
    }
  }

  lemma PrefixJoin(s: string, i: nat, j: nat, a: string, b: string)
    requires i <= j <= |s| && s[..i] == a && s[i..j] == b
    ensures s[..j] == a + b
  {
    assert s[..j] == s[..i] + s[i..j];
  }

  /** A match captures only parts the pattern allows. */
  lemma MatchLocaleWellFormed(s: string)
    requires StartsWithLanguage(s)
    ensures WellFormed(MatchLocale(s).value)
  {
  }

  /** The captured parts, joined by '-', spell out the prefix of the tag the match covers. */
  lemma MatchLocaleCovers(s: string)
    requires StartsWithLanguage(s)
    ensures |Render(MatchLocale(s).value)| <= |s|
    ensures Render(MatchLocale(s).value) == s[..|Render(MatchLocale(s).value)|]
  {
    var p := MatchLocale(s).value;
    var n := LanguageLength(s);
    var p1 := After(n, p.extlang);
    var p2 := After(p1, p.script);
    var p3 := After(p2, p.region);
    DashedAt(s, n, 3, Letters);
    DashedAt(s, p1, 4, Letters);
    if Subtag(s, p2, 2, Letters).Some? {
      DashedAt(s, p2, 2, Letters);
    } else {
      DashedAt(s, p2, 3, Digits);
    }
    PrefixJoin(s, n, p1, p.language, Dashed(p.extlang));
    PrefixJoin(s, p1, p2, p.language + Dashed(p.extlang), Dashed(p.script));
    PrefixJoin(s, p2, p3, p.language + Dashed(p.extlang) + Dashed(p.script), Dashed(p.region));
  }

  /** After a subtag comes the end of the tag or another '-'. */
  predicate Continues(rest: string) {
    rest == [] || rest[0] == '-'
  }

  lemma DashedContinues(t: Option<string>, rest: string)
    requires Continues(rest)
    ensures Continues(Dashed(t) + rest)
  {
  }

  /** Tried on a rendered region, the region group captures it again. */
  lemma RegionRoundTrip(region: Option<string>)
    requires OptionalSubtag(region, 2, Letters) || OptionalSubtag(region, 3, Digits)
    ensures (if Subtag(Dashed(region), 0, 2, Letters).Some? then Subtag(Dashed(region), 0, 2, Letters)
             else Subtag(Dashed(region), 0, 3, Digits)) == region
  {
    if region.Some? {
      var t := Dashed(region);
      assert t[1..1 + |region.value|] == region.value;
      if |region.value| == 3 {
        assert !IsLetter(t[1]) by { assert InClass(region.value[0], Digits); }
      }
    }
  }

  /** Tried on a rendered script and region, the script group captures the script. */
  lemma ScriptRoundTrip(script: Option<string>, region: Option<string>)
    requires OptionalSubtag(script, 4, Letters)
    requires OptionalSubtag(region, 2, Letters) || OptionalSubtag(region, 3, Digits)
    ensures Subtag(Dashed(script) + Dashed(region), 0, 4, Letters) == script
  {
    var t := Dashed(script) + Dashed(region);
    if script.Some? {
      assert t[1..5] == script.value;
      DashedContinues(region, []);
      assert t[5..] == Dashed(region);
    }
  }

  /** Tried on a rendered extlang, script and region, the extlang group captures the extlang. */
  lemma ExtlangRoundTrip(extlang: Option<string>, script: Option<string>, region: Option<string>)
    requires OptionalSubtag(extlang, 3, Letters) && OptionalSubtag(script, 4, Letters)
    requires OptionalSubtag(region, 2, Letters) || OptionalSubtag(region, 3, Digits)
    ensures Subtag(Dashed(extlang) + Dashed(script) + Dashed(region), 0, 3, Letters) == extlang
  {
    var rest := Dashed(script) + Dashed(region);
    var t := Dashed(extlang) + rest;
    assert t == Dashed(extlang) + Dashed(script) + Dashed(region);
    if extlang.Some? {
      assert t[1..4] == extlang.value;
      DashedContinues(region, []);
      DashedContinues(script, Dashed(region));
      assert t[4..] == rest;
    } else if script.Some? {
      assert t[4] == script.value[3];
    } else if region.Some? && |region.value| == 3 {
      assert t[1] == region.value[0];
      assert InClass(region.value[0], Digits);
    }
  }

  lemma LanguageThenRest(language: string, rest: string)
    requires (|language| == 2 || |language| == 3) && AllIn(language, Letters) && Continues(rest)
    ensures LanguageLength(language + rest) == |language|
    ensures (language + rest)[..|language|] == language
  {
    var s := language + rest;
    assert s[0] == language[0] && s[1] == language[1];
    assert InClass(language[0], Letters) && InClass(language[1], Letters);
    if |language| == 3 {
      assert s[2] == language[2];
      assert InClass(language[2], Letters);
    } else if |s| > 2 {
      assert s[2] == rest[0];
    }
  }

  /** The language group takes back exactly the rendered language. */
  lemma RenderLanguage(p: LocaleParts)
    requires WellFormed(p)
    ensures LanguageLength(Render(p)) == |p.language|
    ensures Render(p)[..|p.language|] == p.language
  {
    var rest := Dashed(p.extlang) + Dashed(p.script) + Dashed(p.region);
    assert Render(p) == p.language + rest;
    DashedContinues(p.region, []);
    DashedContinues(p.script, Dashed(p.region));
    DashedContinues(p.extlang, Dashed(p.script) + Dashed(p.region));
    LanguageThenRest(p.language, rest);
  }

  /** The text after each rendered part is the rendering of the parts after it. */
  lemma RenderSuffixes(p: LocaleParts)
    ensures var n := |p.language|;
      Render(p)[n..] == Dashed(p.extlang) + Dashed(p.script) + Dashed(p.region)
    ensures var n := |p.language| + |Dashed(p.extlang)|;
      Render(p)[n..] == Dashed(p.script) + Dashed(p.region)
    ensures var n := |p.language| + |Dashed(p.extlang)| + |Dashed(p.script)|;
      Render(p)[n..] == Dashed(p.region)
  {
  }

  /** Rendering well-formed parts and matching the result gives the parts back. */
  lemma MatchLocaleRender(p: LocaleParts)
    requires WellFormed(p)
    ensures MatchLocale(Render(p)) == Some(p)
  {
    var s := Render(p);
    var n := |p.language|;
    var p1 := n + |Dashed(p.extlang)|;
    var p2 := p1 + |Dashed(p.script)|;
    RenderLanguage(p);
    RenderSuffixes(p);
    SubtagLocal(s, n, 3, Letters);
    ExtlangRoundTrip(p.extlang, p.script, p.region);
    assert Subtag(s, n, 3, Letters) == p.extlang;
    assert After(n, p.extlang) == p1;
    SubtagLocal(s, p1, 4, Letters);
    ScriptRoundTrip(p.script, p.region);
    assert Subtag(s, p1, 4, Letters) == p.script;
    assert After(p1, p.script) == p2;
    SubtagLocal(s, p2, 2, Letters);
    SubtagLocal(s, p2, 3, Digits);
    RegionRoundTrip(p.region);
  }

  /** Text after the rendered parts that is empty or starts with '-' does not
      change any group tried inside them: a group that would reach past them
      runs into that '-'. */
  lemma SubtagBeforeRest(r: string, rest: string, pos: nat, len: nat, k: CharClass)
    requires pos < |r| && Continues(rest)
    ensures Subtag(r + rest, pos, len, k) == Subtag(r, pos, len, k)
  {
    var s := r + rest;
    var end := pos + 1 + len;
    if end <= |r| {
      assert s[pos + 1..end] == r[pos + 1..end];
      assert s[pos] == r[pos];
      if end < |r| {
        assert s[end] == r[end];
      }
    } else if end <= |s| {
      assert s[|r|] == '-';
      assert s[pos + 1..end][|r| - pos - 1] == s[|r|];
      assert !InClass(s[pos + 1..end][|r| - pos - 1], k);
    }
  }

  /** Subtags after the region, such as a variant or an extension, are ignored:
      the match gives back the parts before them. */
  lemma MatchLocaleTrailing(p: LocaleParts, rest: string)
    requires WellFormed(p) && p.region.Some? && Continues(rest)
    ensures MatchLocale(Render(p) + rest) == Some(p)
  {
    var r := Render(p);
    var s := r + rest;
    MatchLocaleRender(p);
    RenderLanguage(p);
    var n := |p.language|;
    var p1 := n + |Dashed(p.extlang)|;
    var p2 := p1 + |Dashed(p.script)|;
    assert |r| == p2 + |Dashed(p.region)|;
    assert s[0] == r[0] && s[1] == r[1] && s[2] == r[2];
    assert LanguageLength(s) == n;
    assert s[..n] == r[..n];
    SubtagBeforeRest(r, rest, n, 3, Letters);
    SubtagBeforeRest(r, rest, p1, 4, Letters);
    SubtagBeforeRest(r, rest, p2, 2, Letters);
    SubtagBeforeRest(r, rest, p2, 3, Digits);
  }

  /** A variant after the region: en-US-POSIX captures the region US. */
  lemma ExampleTrailingVariant()
    ensures MatchLocale("en-US-POSIX") == Some(LocaleParts("en", None, None, Some("US")))
    ensures WeekStart("en-US-POSIX") == Sun
  {
    var p := LocaleParts("en", None, None, Some("US"));
    assert Render(p) + "-POSIX" == "en-US-POSIX";
    MatchLocaleTrailing(p, "-POSIX");
  }

  /** When a region is captured it alone decides: two tags with the same region
      start their weeks on the same day, whatever their languages. */
  lemma RegionDecides(a: string, b: string)
    requires StartsWithLanguage(a) && StartsWithLanguage(b)
    requires MatchLocale(a).value.region.Some? && MatchLocale(a).value.region == MatchLocale(b).value.region
    ensures WeekStart(a) == WeekStart(b)
  {
  }

  /** Without a region the language alone decides. */
  lemma LanguageDecides(a: string, b: string)
    requires StartsWithLanguage(a) && StartsWithLanguage(b)
    requires MatchLocale(a).value.region.None? && MatchLocale(b).value.region.None?
    requires MatchLocale(a).value.language == MatchLocale(b).value.language
    ensures WeekStart(a) == WeekStart(b)
  {
  }

  /** Lookups are case-sensitive: a tag without a region whose language starts
      with an upper-case letter starts on Monday. */
  lemma UpperCaseLanguageIsMonday(locale: string)
    requires StartsWithLanguage(locale) && MatchLocale(locale).value.region.None?
    requires 'A' <= locale[0] <= 'Z'
    ensures WeekStart(locale) == Mon
  {
    var language := MatchLocale(locale).value.language;
    assert language[0] == locale[0];
    if language in LanguageSun || language in LanguageSat {
      LanguageCodesLower(language);
    }
  }

  /** A region on the Sunday list decides, after a script too. */
  lemma ExampleRegionSunday()
    ensures WeekStart("en-US") == Sun
    ensures WeekStart("zh-Hant-TW") == Sun
  {
    var p0 := LocaleParts("en", None, None, Some("US"));
    assert Render(p0) == "en-US";
    MatchLocaleRender(p0);
    var p1 := LocaleParts("zh", None, Some("Hant"), Some("TW"));
    assert Render(p1) == "zh-Hant-TW";
    MatchLocaleRender(p1);
  }

  /** A region on the Saturday list decides. */
  lemma ExampleRegionSaturday()
    ensures WeekStart("ar-EG") == Sat
  {
    var p0 := LocaleParts("ar", None, None, Some("EG"));
    assert Render(p0) == "ar-EG";
    MatchLocaleRender(p0);
    NotSundayEG();
  }

  lemma NotSundayEG()
    ensures "EG" !in RegionSun
  {
  }

  lemma NotSundayArq()
    ensures "arq" !in LanguageSun
  {
  }

  lemma NotListedGB()
    ensures "GB" !in RegionSun && "GB" !in RegionSat
  {
  }

  lemma NotListedLowerUS()
    ensures "us" !in RegionSun && "us" !in RegionSat
  {
  }

  lemma NotListed419()
    ensures "419" !in RegionSun && "419" !in RegionSat
  {
  }

  /** A region on neither list gives Monday, even for a Sunday language. */
  lemma ExampleRegionMonday()
    ensures WeekStart("en-GB") == Mon
  {
    var p := LocaleParts("en", None, None, Some("GB"));
    assert Render(p) == "en-GB";
    MatchLocaleRender(p);
    NotListedGB();
  }

  /** Region lookup is case-sensitive: a lower-case region is on neither list. */
  lemma ExampleRegionCase()
    ensures WeekStart("en-us") == Mon
  {
    var p := LocaleParts("en", None, None, Some("us"));
    assert Render(p) == "en-us";
    MatchLocaleRender(p);
    NotListedLowerUS();
  }

  /** A numeric region is captured, and is on neither list. */
  lemma ExampleNumericRegion()
    ensures WeekStart("es-419") == Mon
  {
    var p := LocaleParts("es", None, None, Some("419"));
    assert Render(p) == "es-419";
    MatchLocaleRender(p);
    NotListed419();
  }

  /** Without a region the language lists decide, 3-letter languages included. */
  lemma ExampleLanguage()
    ensures WeekStart("en") == Sun
    ensures WeekStart("arq") == Sat
  {
    var p0 := LocaleParts("en", None, None, None);
    assert Render(p0) == "en";
    MatchLocaleRender(p0);
    var p1 := LocaleParts("arq", None, None, None);
    assert Render(p1) == "arq";
    MatchLocaleRender(p1);
    NotSundayArq();
  }

  /** Three letters after the language are an extended language, not a region. */
  lemma ExampleExtlangNotRegion()
    ensures WeekStart("en-USA") == Sun
  {
    var p0 := LocaleParts("en", Some("USA"), None, None);
    assert Render(p0) == "en-USA";
    MatchLocaleRender(p0);
  }

  /** Language lookup is case-sensitive too. */
  lemma ExampleLanguageCase()
    ensures WeekStart("EN") == Mon
  {
    UpperCaseLanguageIsMonday("EN");
  }

  // ---------------------------------------------------------------------------
  // General facts about the lists

  predicate IsUpper(c: char) {
    'A' <= c <= 'Z'
  }

  /** Two upper-case letters. */
  predicate UpperPair(c: string) {
    |c| == 2 && IsUpper(c[0]) && IsUpper(c[1])
  }

  lemma RegionSatUpper(c: string)
    requires c in RegionSat
    ensures UpperPair(c)
  {
  }

  lemma RegionSun1Upper(c: string)
    requires c in RegionSun1
    ensures UpperPair(c)
  {
  }

  lemma RegionSun2Upper(c: string)
    requires c in RegionSun2
    ensures UpperPair(c)
  {
  }

  lemma RegionSun3Upper(c: string)
    requires c in RegionSun3
    ensures UpperPair(c)
  {
  }

  lemma RegionSun4Upper(c: string)
    requires c in RegionSun4
    ensures UpperPair(c)
  {
  }

  lemma RegionSunUpper(c: string)
    requires c in RegionSun
    ensures UpperPair(c)
  {
    if c in RegionSun1 {
      RegionSun1Upper(c);
    } else if c in RegionSun2 {
      RegionSun2Upper(c);
    } else if c in RegionSun3 {
      RegionSun3Upper(c);
    } else {
      RegionSun4Upper(c);
    }
  }

  /** Every region code on the lists is two upper-case letters. */
  lemma RegionCodesUpper(c: string)
    requires c in RegionSun || c in RegionSat
    ensures UpperPair(c)
  {
    if c in RegionSun {
      RegionSunUpper(c);
    } else {
      RegionSatUpper(c);
    }
  }

  /** Region lookup is case-sensitive: a captured region that starts with a
      lower-case letter is on neither list, so the week starts on Monday. */
  lemma LowerCaseRegionIsMonday(locale: string)
    requires StartsWithLanguage(locale) && MatchLocale(locale).value.region.Some?
    requires 'a' <= MatchLocale(locale).value.region.value[0] <= 'z'
    ensures WeekStart(locale) == Mon
  {
    var region := MatchLocale(locale).value.region.value;
    if region in RegionSun || region in RegionSat {
      RegionCodesUpper(region);
    }
  }

  /** No language is on both language lists. */
  lemma LanguageListsDisjoint(c: string)
    requires c in LanguageSat
    ensures c !in LanguageSun
  {
  }

  lemma SatNotInSun1(c: string)
    requires c in RegionSat
    ensures c !in RegionSun1
  {
  }

  lemma SatNotInSun2(c: string)
    requires c in RegionSat
    ensures c !in RegionSun2
  {
  }

  lemma SatNotInSun3(c: string)
    requires c in RegionSat
    ensures c !in RegionSun3
  {
  }

  lemma SatNotInSun4(c: string)
    requires c in RegionSat
    ensures c !in RegionSun4
  {
  }

  /** No region is on both region lists. */
  lemma RegionListsDisjoint(c: string)
    requires c in RegionSat
    ensures c !in RegionSun
  {
    SatNotInSun1(c);
    SatNotInSun2(c);
    SatNotInSun3(c);
    SatNotInSun4(c);
  }

  /** The lists are disjoint, so the order in which they are tried does not
      matter: trying the Saturday list first would give the same week start. */
  lemma ListOrderIrrelevant(locale: string)
    requires StartsWithLanguage(locale)
    ensures var parts := MatchLocale(locale).value;
      var key := if parts.region.Some? then parts.region.value else parts.language;
      var sun := if parts.region.Some? then RegionSun else LanguageSun;
      var sat := if parts.region.Some? then RegionSat else LanguageSat;
      WeekStart(locale) == if key in sat then Sat else if key in sun then Sun else Mon
  {
    WeekStartDecision(locale);
    var parts := MatchLocale(locale).value;
    if parts.region.Some? {
      if parts.region.value in RegionSat {
        RegionListsDisjoint(parts.region.value);
      }
    } else if parts.language in LanguageSat {
      LanguageListsDisjoint(parts.language);
    }
  }
}
