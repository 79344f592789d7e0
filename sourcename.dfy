/**
 * `getSourceName`: the label shown for a source link. The URL parser is
 * outside this model; its outcome is the input, `None` when parsing the URL
 * throws and `Some(hostname)` otherwise.
 */
module SourceName {
  import opened Text
  import opened ProjectModel
  import JsRecord

  const ParseFailureLabel: string := "Source"

  const DomainMap: map<string, string> := map[
    "kickstarter.com" := "Kickstarter",
    "indiegogo.com" := "Indiegogo",
    "wikipedia.org" := "Wikipedia",
    "en.wikipedia.org" := "Wikipedia",
    "techcrunch.com" := "TechCrunch",
    "theverge.com" := "The Verge",
    "engadget.com" := "Engadget",
    "gizmodo.com" := "Gizmodo",
    "wired.com" := "Wired",
    "medium.com" := "Medium",
    "reddit.com" := "Reddit",
    "youtube.com" := "YouTube",
    "twitter.com" := "Twitter",
    "failory.com" := "Failory",
    "backerkit.com" := "BackerKit",
    "kicktraq.com" := "Kicktraq",
    "ftc.gov" := "FTC",
    "hackaday.com" := "Hackaday",
    "thespoon.tech" := "The Spoon",
    "crowdfundinsider.com" := "Crowdfund Insider",
    "androidpolice.com" := "Android Police",
    "slashgear.com" := "SlashGear",
    "geekwire.com" := "GeekWire",
    "washingtonpost.com" := "Washington Post",
    "fortune.com" := "Fortune",
    "boardgamewire.com" := "Board Game Wire",
    "bbb.org" := "BBB",
    "eevblog.com" := "EEVBlog",
    "kguttag.com" := "KGOnTech",
    "gearjunkie.com" := "GearJunkie",
    "stltoday.com" := "St. Louis Today",
    "thedanzing.com" := "The Danzing"
  ]

  /** The index of the first occurrence of `pat` in `s`, if any. */
  function IndexOf(s: string, pat: string): (r: Option<nat>)
    ensures r.Some? ==> OccursAt(s, pat, r.value)
    ensures r.Some? ==> forall j :: 0 <= j < r.value ==> !OccursAt(s, pat, j)
    ensures r.None? ==> forall j :: !OccursAt(s, pat, j)
    decreases |s|
  {
    if pat <= s then
      assert s[0..|pat|] == pat;
      Some(0)
    else if s == [] then
      None
    else
      ShiftOccurrence(s, pat);
      match IndexOf(s[1..], pat)
      case Some(i) => Some(i + 1)
      case None => None
  }

  /** An occurrence in `s` past its first character is one in the tail. */
  lemma ShiftOccurrence(s: string, pat: string)
    requires s != [] && !(pat <= s)
    ensures forall j :: OccursAt(s, pat, j) <==> j > 0 && OccursAt(s[1..], pat, j - 1)
  {
    forall j | j > 0 && (OccursAt(s, pat, j) || OccursAt(s[1..], pat, j - 1))
      ensures s[1..][j - 1..j - 1 + |pat|] == s[j..j + |pat|]
    {
    }
  }

  /** `s.replace(pat, rep)` with a string pattern: the first occurrence only. */
  function ReplaceFirst(s: string, pat: string, rep: string): (r: string)
    ensures forall i :: OccursAt(s, pat, i) && (forall j :: 0 <= j < i ==> !OccursAt(s, pat, j)) ==>
      r == s[..i] + rep + s[i + |pat|..]
    ensures (forall j :: !OccursAt(s, pat, j)) ==> r == s
  {
    match IndexOf(s, pat)
    case None => s
    case Some(i) => s[..i] + rep + s[i + |pat|..]
  }

  /** `hostname.replace('www.', '')`. */
  function StripWww(host: string): string
  {
    ReplaceFirst(host, "www.", "")
  }

  /** The first occurrence is unique, so `IndexOf` finds exactly it. */
  lemma FirstOccurrence(s: string, pat: string, i: int)
    requires OccursAt(s, pat, i)
    requires forall j :: 0 <= j < i ==> !OccursAt(s, pat, j)
    ensures IndexOf(s, pat) == Some(i)
  {
  }

  /**
   * Only the first "www." is removed, wherever it stands in the hostname;
   * a hostname without one is unchanged.
   */
  lemma StripWwwFirstOnly(host: string, i: int)
    requires OccursAt(host, "www.", i)
    requires forall j :: 0 <= j < i ==> !OccursAt(host, "www.", j)
    ensures StripWww(host) == host[..i] + host[i + 4..]
    ensures |StripWww(host)| == |host| - 4
  {
    FirstOccurrence(host, "www.", i);
  }

  /** A leading "www." is the first occurrence, so it is the one removed. */
  lemma StripLeadingWww(rest: string)
    ensures StripWww("www." + rest) == rest
  {
    assert "www." <= "www." + rest;
    assert ("www." + rest)[4..] == rest;
  }

  /** A hostname without a 'w' has no "www." to remove. */
  lemma StripWwwWithoutW(host: string)
    requires 'w' !in host
    ensures StripWww(host) == host
  {
    forall j | 0 <= j && j + 4 <= |host|
      ensures !OccursAt(host, "www.", j)
    {
      assert host[j..j + 4][0] == host[j];
    }
  }

  /** `hostname.split('.')[0]`: the text before the first '.'. */
  function FirstLabel(s: string): (r: string)
    ensures r <= s && '.' !in r
    ensures r == s || s[|r|] == '.'
    decreases |s|
  {
    if s == [] || s[0] == '.' then [] else [s[0]] + FirstLabel(s[1..])
  }

  lemma {:induction false} FirstLabelOfDotted(first: string, rest: string)
    requires '.' !in first
    ensures FirstLabel(first + "." + rest) == first
    decreases |first|
  {
    if first != [] {
      assert (first + "." + rest)[1..] == first[1..] + "." + rest;
      FirstLabelOfDotted(first[1..], rest);
    }
  }

  lemma {:induction false} FirstLabelWithoutDot(s: string)
    requires '.' !in s
    ensures FirstLabel(s) == s
    decreases |s|
  {
    if s != [] {
      FirstLabelWithoutDot(s[1..]);
      assert s == [s[0]] + s[1..];
    }
  }

  /** `s.charAt(0).toUpperCase() + s.slice(1)`. */
  function Capitalize(s: string): (r: string)
  {
    if s == [] then [] else [ToUpper(s[0])] + s[1..]
  }

  /** The label for a hostname outside the table. */
  function FallbackLabel(host: string): string
  {
    Capitalize(FirstLabel(StripWww(host)))
  }

  /**
   * The label of a source link, looking the stripped hostname up among the
   * table's own entries (every label in the table is non-empty, so the
   * source's `domainMap[hostname] || ...` falls back exactly on a miss).
   */
  function GetSourceName(hostname: Option<string>): (r: string)
    ensures hostname.None? ==> r == ParseFailureLabel
    ensures hostname.Some? && StripWww(hostname.value) in DomainMap ==>
      r == DomainMap[StripWww(hostname.value)]
    ensures hostname.Some? && StripWww(hostname.value) !in DomainMap ==>
      r == FallbackLabel(hostname.value)
  {
    match hostname
    case None => ParseFailureLabel
    case Some(h) =>
      var key := StripWww(h);
      if key in DomainMap && DomainMap[key] != "" then DomainMap[key] else FallbackLabel(h)
  }

  /**
   * Outside the table the label is the first dot-separated label of the
   * stripped hostname, its first character upper-cased and the rest kept.
   */
  lemma FallbackLabelShape(host: string)
    ensures var first := FirstLabel(StripWww(host)); var r := FallbackLabel(host);
      && |r| == |first| && '.' !in r
      && (first != [] ==> r[0] == ToUpper(first[0]) && r[1..] == first[1..])
      && first <= StripWww(host)
      && (first == StripWww(host) || StripWww(host)[|first|] == '.')
  {
  }

  /**
   * Every table hostname written with a leading "www." is found; hostnames
   * without a 'w' are found as they are by `LookupWithoutW`.
   */
  lemma TableHostFound(host: string)
    requires host in DomainMap
    ensures GetSourceName(Some("www." + host)) == DomainMap[host]
  {
    StripLeadingWww(host);
  }

  /** Of a doubled "www.", only the first is removed. */
  lemma StripDoubleWww(rest: string)
    ensures StripWww("www.www." + rest) == "www." + rest
  {
    assert "www.www." + rest == "www." + ("www." + rest);
    StripLeadingWww("www." + rest);
  }

  /** A hostname starting with "www.www." falls back to "Www". */
  lemma DoubleWwwFallback(rest: string)
    ensures FallbackLabel("www.www." + rest) == "Www"
  {
    StripDoubleWww(rest);
    assert "www." + rest == "www" + "." + rest;
    FirstLabelOfDotted("www", rest);
  }

  /** Outside the table, a doubled "www." is shown as "Www". */
  lemma DoubleWwwLabel(rest: string)
    requires "www." + rest !in DomainMap
    ensures GetSourceName(Some("www.www." + rest)) == "Www"
  {
    StripDoubleWww(rest);
    DoubleWwwFallback(rest);
  }

  // The literal is a parameter pinned by `requires`, which keeps the solver from
  // unfolding it in every proof obligation of the lemma.
  lemma KickstarterWithWwwNotInTable(rest: string)
    requires rest == "kickstarter.com"
    ensures "www." + rest !in DomainMap
  {
  }

  /**
   * "www.www.kickstarter.com" loses only its first "www.", so it is not in
   * the table and is shown as "Www", although "kickstarter.com" is.
   * The literal is a parameter pinned by `requires`, which keeps the solver
   * from unfolding it in every proof obligation of the lemma.
   */
  lemma DoubleWwwNotFound(rest: string)
    requires rest == "kickstarter.com"
    ensures rest in DomainMap
    ensures StripWww("www.www." + rest) == "www." + rest
    ensures GetSourceName(Some("www.www." + rest)) == "Www"
  {
    StripDoubleWww(rest);
    KickstarterWithWwwNotInTable(rest);
    DoubleWwwLabel(rest);
  }

  /** `getSourceName` as written: the hostname indexes a plain object literal. */
  function GetSourceNameAsWritten(hostname: Option<string>): JsRecord.JsValue
  {
    match hostname
    case None => JsRecord.Str(ParseFailureLabel)
    case Some(h) => JsRecord.OrElse(JsRecord.Index(DomainMap, StripWww(h)), FallbackLabel(h))
  }

  /** A hostname without a 'w' is looked up as it is. */
  lemma LookupWithoutW(host: string)
    requires 'w' !in host
    ensures GetSourceNameAsWritten(Some(host)) ==
      JsRecord.OrElse(JsRecord.Index(DomainMap, host), Capitalize(FirstLabel(host)))
    ensures GetSourceName(Some(host)) ==
      if host in DomainMap then DomainMap[host] else Capitalize(FirstLabel(host))
  {
    StripWwwWithoutW(host);
  }

  // The literal is a parameter pinned by `requires`, which keeps the solver from
  // unfolding it in every proof obligation of the lemma.
  lemma ConstructorNotOwn(host: string)
    requires host == "constructor"
    ensures host !in DomainMap
    ensures JsRecord.Index(DomainMap, host) == JsRecord.Inherited(host)
  {
  }

  // The literal is a parameter pinned by `requires`, which keeps the solver from
  // unfolding it in every proof obligation of the lemma.
  lemma ConstructorCapitalized(host: string)
    requires host == "constructor"
    ensures Capitalize(FirstLabel(host)) == "Constructor"
  {
    FirstLabelWithoutDot(host);
    assert Capitalize(host) == "C" + "onstructor";
  }

  /**
   * As written, the hostname "constructor" (as in "https://constructor/")
   * finds the `Object` function inherited by the table, which is truthy, so
   * a function is returned instead of a label.
   * The literal is a parameter pinned by `requires`, which keeps the solver
   * from unfolding it in every proof obligation of the lemma.
   */
  lemma ConstructorHostLeaks(host: string)
    requires host == "constructor"
    ensures GetSourceNameAsWritten(Some(host)) == JsRecord.Inherited("constructor")
    ensures GetSourceName(Some(host)) == "Constructor"
  {
    LookupWithoutW(host);
    ConstructorNotOwn(host);
    ConstructorCapitalized(host);
  }

  /** Off the inherited members, the corrected lookup gives what the source computes. */
  lemma AsWrittenAgreesOffPrototype(hostname: Option<string>)
    requires hostname.Some? ==> StripWww(hostname.value) !in JsRecord.ObjectPrototypeMembers
    ensures GetSourceNameAsWritten(hostname) == JsRecord.Str(GetSourceName(hostname))
  {
  }
}
