/**
 * `getTagClass`: the style token of a failure tag. The tag is lower-cased,
 * every character outside 'a'..'z' is dropped, and the resulting key is
 * looked up in a fixed table of eleven failure kinds, with a gray default.
 */
module TagStyle {
  import opened Text
  import JsRecord

  const DefaultTagClass: string := "bg-gray-100 text-gray-600 border border-gray-200"

  const TagClasses: map<string, string> := map[
    "fraudscam" := "bg-red-50 text-red-600 border border-red-200",
    "manufacturingissues" := "bg-orange-50 text-orange-600 border border-orange-200",
    "technicallyimpossible" := "bg-purple-50 text-purple-600 border border-purple-200",
    "ranoutofmoney" := "bg-yellow-50 text-yellow-600 border border-yellow-200",
    "companyshutdown" := "bg-slate-100 text-slate-500 border border-slate-200",
    "neverdelivered" := "bg-red-50 text-red-700 border border-red-200",
    "partialdelivery" := "bg-amber-50 text-amber-600 border border-amber-200",
    "shippingproblems" := "bg-blue-50 text-blue-600 border border-blue-200",
    "poorquality" := "bg-fuchsia-50 text-fuchsia-600 border border-fuchsia-200",
    "overpromised" := "bg-cyan-50 text-cyan-600 border border-cyan-200",
    "projectfailed" := "bg-slate-100 text-slate-600 border border-slate-300"
  ]

  predicate IsKey(s: string) { forall i :: 0 <= i < |s| ==> IsLower(s[i]) }

  /** `replace(/[^a-z]/g, '')`: keep the characters 'a'..'z', in order. */
  function KeepLetters(s: string): string
    decreases |s|
  {
    if s == [] then []
    else (if IsLower(s[0]) then [s[0]] else []) + KeepLetters(s[1..])
  }

  /** The normalised key of a tag. */
  function TagKey(tag: string): string
  {
    KeepLetters(LowerString(tag))
  }

  lemma {:induction false} KeepLettersIsKey(s: string)
    ensures IsKey(KeepLetters(s))
    decreases |s|
  {
    if s != [] {
      KeepLettersIsKey(s[1..]);
    }
  }

  lemma {:induction false} KeepLettersOfKey(s: string)
    requires IsKey(s)
    ensures KeepLetters(s) == s
    decreases |s|
  {
    if s != [] {
      KeepLettersOfKey(s[1..]);
      assert s == [s[0]] + s[1..];
    }
  }

  lemma {:induction false} KeepLettersAppend(a: string, b: string)
    ensures KeepLetters(a + b) == KeepLetters(a) + KeepLetters(b)
    decreases |a|
  {
    if a != [] {
      assert (a + b)[1..] == a[1..] + b;
      KeepLettersAppend(a[1..], b);
    } else {
      assert a + b == b;
    }
  }

  lemma LowerStringOfKey(s: string)
    requires IsKey(s)
    ensures LowerString(s) == s
  {
  }

  /** A key is its own normalisation, so normalising is idempotent. */
  lemma TagKeyIdempotent(tag: string)
    ensures IsKey(TagKey(tag))
    ensures TagKey(TagKey(tag)) == TagKey(tag)
  {
    var k := TagKey(tag);
    KeepLettersIsKey(LowerString(tag));
    LowerStringOfKey(k);
    KeepLettersOfKey(k);
  }

  /**
   * The style token of a tag, looking the key up among the table's own
   * entries; the table's labels are all non-empty, so the source's
   * `tagClasses[tagKey] || default` falls back exactly on a missing key.
   */
  function GetTagClass(tag: string): (r: string)
    ensures TagKey(tag) in TagClasses ==> r == TagClasses[TagKey(tag)]
    ensures TagKey(tag) !in TagClasses ==> r == DefaultTagClass
  {
    var key := TagKey(tag);
    if key in TagClasses && TagClasses[key] != "" then TagClasses[key] else DefaultTagClass
  }

  /**
   * The style depends only on the normalised key: tags with the same key get
   * the same style, and a tag styles like its key. The default is returned
   * exactly when the key is not in the table.
   */
  lemma TagClassByKey(a: string, b: string)
    requires TagKey(a) == TagKey(b)
    ensures GetTagClass(a) == GetTagClass(b)
    ensures GetTagClass(a) == GetTagClass(TagKey(a))
    ensures GetTagClass(a) == DefaultTagClass <==> TagKey(a) !in TagClasses
  {
    TagKeyIdempotent(a);
  }

  /** Every table key is a normalised key, so every entry is reachable. */
  lemma TableKeysReachable(k: string)
    requires k in TagClasses
    ensures TagKey(k) == k
    ensures GetTagClass(k) == TagClasses[k]
  {
    assert IsKey(k) by {
      assert k in {"fraudscam", "manufacturingissues", "technicallyimpossible", "ranoutofmoney",
                   "companyshutdown", "neverdelivered", "partialdelivery", "shippingproblems",
                   "poorquality", "overpromised", "projectfailed"};
    }
    LowerStringOfKey(k);
    KeepLettersOfKey(k);
  }

  /** Normalisation works piece by piece. */
  lemma TagKeyAppend(a: string, b: string)
    ensures TagKey(a + b) == TagKey(a) + TagKey(b)
  {
    assert LowerString(a + b) == LowerString(a) + LowerString(b);
    KeepLettersAppend(LowerString(a), LowerString(b));
  }

  /**
   * Spacing, case and punctuation do not matter: "Other Issue!" has the key
   * "otherissue", which is not a failure kind of the table, so it is gray.
   * The literal is a parameter pinned by `requires`, which keeps the solver
   * from unfolding it in every proof obligation of the lemma.
   */
  lemma UnknownTagIsGray(tag: string)
    requires tag == "Other Issue!"
    ensures TagKey(tag) == "otherissue"
    ensures GetTagClass(tag) == DefaultTagClass
  {
    assert tag == "Other " + "Issue!";
    TagKeyAppend("Other ", "Issue!");
    assert TagKey("Other ") == "other";
    assert TagKey("Issue!") == "issue";
  }

  /**
   * "Fraud/Scam" is styled as the table entry "fraudscam".
   * The literal is a parameter pinned by `requires`, which keeps the solver
   * from unfolding it in every proof obligation of the lemma.
   */
  lemma KnownTagFound(tag: string)
    requires tag == "Fraud/Scam"
    ensures TagKey(tag) == "fraudscam"
    ensures GetTagClass(tag) == TagClasses["fraudscam"]
  {
    assert tag == "Fraud" + "/Scam";
    TagKeyAppend("Fraud", "/Scam");
    assert TagKey("Fraud") == "fraud";
    assert TagKey("/Scam") == "scam";
  }

  /** `getTagClass` as written: the key indexes a plain object literal. */
  function GetTagClassAsWritten(tag: string): JsRecord.JsValue
  {
    JsRecord.OrElse(JsRecord.Index(TagClasses, TagKey(tag)), DefaultTagClass)
  }

  /**
   * As written, a tag whose key names a member inherited from
   * `Object.prototype` yields that member instead of a style token: the tag
   * "Constructor" becomes the key "constructor" and returns the `Object`
   * function, which is truthy, so the default is never reached.
   * The literal is a parameter pinned by `requires`, which keeps the solver
   * from unfolding it in every proof obligation of the lemma.
   */
  lemma ConstructorTagLeaks(tag: string)
    requires tag == "Constructor"
    ensures TagKey(tag) == "constructor"
    ensures GetTagClassAsWritten(tag) == JsRecord.Inherited("constructor")
    ensures GetTagClass(tag) == DefaultTagClass
  {
    assert tag == "Constr" + "uctor";
    TagKeyAppend("Constr", "uctor");
    assert TagKey("Constr") == "constr";
    assert TagKey("uctor") == "uctor";
  }

  /**
   * Apart from keys that name inherited members, the corrected lookup gives
   * exactly what the source computes.
   */
  lemma AsWrittenAgreesOffPrototype(tag: string)
    requires TagKey(tag) !in JsRecord.ObjectPrototypeMembers
    ensures GetTagClassAsWritten(tag) == JsRecord.Str(GetTagClass(tag))
  {
  }
}
