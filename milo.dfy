/**
 * src/milo.js: reading a query parameter, choosing the page language,
 * rewriting the `lang` term when the language changes, the precedence of the
 * sources `loadBlocks` loads from, the language menu, and the tab bar.
 */
module Milo {
  import opened Wrappers
  import opened Storage

  // ---------------------------------------------------------------------------
  // `getStringParamFromUrl` (src/milo.js:58-61).
  // ---------------------------------------------------------------------------

  /** `[?&]name=` starts at `i` of the search string. */
  predicate KeyAt(s: string, name: string, i: int) {
    0 <= i && i + |name| + 2 <= |s| &&
    (s[i] == '?' || s[i] == '&') && s[i + 1..i + 1 + |name|] == name && s[i + 1 + |name|] == '='
  }

  /** `[?&]name=([^&]+)` matches at `i`: the key is followed by at least one character other than `&`. */
  predicate ParamAt(s: string, name: string, i: int) {
    KeyAt(s, name, i) && i + |name| + 2 < |s| && s[i + |name| + 2] != '&'
  }

  /** The leftmost position at or after `from` where the parameter pattern matches. */
  function FirstParam(s: string, name: string, from: nat): (found: Option<nat>)
    ensures found.Some? ==>
      from <= found.value && ParamAt(s, name, found.value) &&
      forall k :: from <= k < found.value ==> !ParamAt(s, name, k)
    ensures found.None? ==> forall k :: from <= k ==> !ParamAt(s, name, k)
    decreases |s| - from
  {
    if from >= |s| then None
    else if ParamAt(s, name, from) then Some(from)
    else FirstParam(s, name, from + 1)
  }

  /** The leftmost position at or after `from` where `[?&]name=` occurs. */
  function FirstKey(s: string, name: string, from: nat): (found: Option<nat>)
    ensures found.Some? ==>
      from <= found.value && KeyAt(s, name, found.value) &&
      forall k :: from <= k < found.value ==> !KeyAt(s, name, k)
    ensures found.None? ==> forall k :: from <= k ==> !KeyAt(s, name, k)
    decreases |s| - from
  {
    if from >= |s| then None
    else if KeyAt(s, name, from) then Some(from)
    else FirstKey(s, name, from + 1)
  }

  /** The longest prefix of `s` without `&` (what `[^&]*` takes). */
  function UntilAmp(s: string): (run: string)
    ensures run <= s && '&' !in run
    ensures run == s || s[|run|] == '&'
  {
    if s == [] || s[0] == '&' then []
    else [s[0]] + UntilAmp(s[1..])
  }

  /** `+` read as a space (`replace(/\+/g, '%20')` followed by decoding). */
  function PlusToSpace(s: string): (r: string)
    ensures |r| == |s|
    ensures forall i :: 0 <= i < |s| ==> r[i] == if s[i] == '+' then ' ' else s[i]
  {
    if s == [] then []
    else [if s[0] == '+' then ' ' else s[0]] + PlusToSpace(s[1..])
  }

  /** `i` is the leftmost match of the parameter pattern. */
  predicate FirstMatchAt(s: string, name: string, i: int) {
    ParamAt(s, name, i) && forall k :: 0 <= k < i ==> !ParamAt(s, name, k)
  }

  /** The captured value of a match at `i`, up to the next `&`, with `+` read as a space. */
  function ValueAt(s: string, name: string, i: int): (value: string)
    requires ParamAt(s, name, i)
    ensures value != []
  {
    var rest := s[i + |name| + 2..];
    assert rest[0] != '&';
    PlusToSpace(UntilAmp(rest))
  }

  /**
   * The value of parameter `name` in the search string, or `defaultValue`
   * when no `?name=` or `&name=` is followed by a character other than `&`.
   */
  function GetStringParamFromUrl(search: string, name: string, defaultValue: string): (value: string)
    ensures (forall i :: 0 <= i < |search| ==> !ParamAt(search, name, i)) ==> value == defaultValue
    ensures forall i :: FirstMatchAt(search, name, i) ==> value == ValueAt(search, name, i)
  {
    var found := FirstParam(search, name, 0);
    FirstParamIsLeftmost(search, name);
    if found.None? then defaultValue else ValueAt(search, name, found.value)
  }

  /** The leftmost match is the one `FirstParam` finds. */
  lemma FirstParamIsLeftmost(s: string, name: string)
    ensures forall i :: FirstMatchAt(s, name, i) ==> FirstParam(s, name, 0) == Some(i)
  {
    forall i | FirstMatchAt(s, name, i)
      ensures FirstParam(s, name, 0) == Some(i)
    {
      var f := FirstParam(s, name, 0);
      assert f.Some?;
      assert !(f.value < i);
      assert !(i < f.value);
    }
  }

  /** A run followed by `&` or by nothing is all `UntilAmp` takes. */
  lemma {:induction false} UntilAmpStops(x: string, rest: string)
    requires '&' !in x
    requires rest == [] || rest[0] == '&'
    ensures UntilAmp(x + rest) == x
  {
    if x != [] {
      assert (x + rest)[1..] == x[1..] + rest;
      UntilAmpStops(x[1..], rest);
    }
  }

  lemma PlusToSpaceKeeps(x: string)
    requires '+' !in x
    ensures PlusToSpace(x) == x
  {
  }

  // ---------------------------------------------------------------------------
  // `getLang` and `isRtl` (src/milo.js:36-43, 67-82).
  // ---------------------------------------------------------------------------

  /** `Milo.LANGUAGE_NAME`. */
  const LanguageName: map<string, string> := map["en" := "English"]

  /** `Milo.LANGUAGE_RTL`. */
  const LanguageRtl: seq<string> := []

  /**
   * The properties every plain JavaScript object inherits from
   * `Object.prototype`: for these, `LANGUAGE_NAME[lang]` is not `undefined`.
   */
  const ObjectPrototypeNames: set<string> := {
    "constructor", "hasOwnProperty", "isPrototypeOf", "propertyIsEnumerable",
    "toLocaleString", "toString", "valueOf", "__proto__",
    "__defineGetter__", "__defineSetter__", "__lookupGetter__", "__lookupSetter__"}

  /** `getLang` as written: the `=== undefined` test also accepts inherited property names. */
  function GetLangAsWritten(search: string): (lang: string)
    ensures var param := GetStringParamFromUrl(search, "lang", "");
      lang == (if param in LanguageName || param in ObjectPrototypeNames then param else "en")
  {
    var lang := GetStringParamFromUrl(search, "lang", "");
    if !(lang in LanguageName || lang in ObjectPrototypeNames) then "en" else lang
  }

  /** A search string holding only `lang=n` reads back `n`. */
  lemma ReadOnlyLang(n: string)
    requires n != [] && '&' !in n && '+' !in n
    ensures GetStringParamFromUrl("?lang=" + n, "lang", "") == n
  {
    RewriteThenRead("", n, "");
  }

  /** `?lang=constructor` makes the as-written `getLang` answer a language it does not know. */
  lemma GetLangAsWrittenAcceptsInherited()
    ensures GetLangAsWritten("?lang=" + "constructor") == "constructor"
    ensures "constructor" !in LanguageName
  {
    var n := "constructor";
    assert forall i :: 0 <= i < |n| ==> n[i] != '&' && n[i] != '+';
    ReadOnlyLang(n);
  }

  /** `getLang` with an own-property test: the URL's `lang` if it names a language, else `'en'`. */
  function GetLang(search: string): (lang: string)
    ensures lang in LanguageName
    ensures var param := GetStringParamFromUrl(search, "lang", "");
      (param in LanguageName ==> lang == param) && (param !in LanguageName ==> lang == "en")
  {
    var lang := GetStringParamFromUrl(search, "lang", "");
    if lang !in LanguageName then "en" else lang
  }

  /** `isRtl`: no language is right-to-left while `LANGUAGE_RTL` is empty. */
  function IsRtl(lang: string): (rtl: bool)
    ensures rtl <==> lang in LanguageRtl
    ensures !rtl
  {
    lang in LanguageRtl
  }

  // ---------------------------------------------------------------------------
  // The search rewrite of `changeLanguage` (src/milo.js:132-139).
  // ---------------------------------------------------------------------------

  /** The first position of `c` in `s`. */
  function IndexOf(s: string, c: char): (found: Option<nat>)
    ensures found.Some? ==> found.value < |s| && s[found.value] == c && c !in s[..found.value]
    ensures found.None? ==> c !in s
  {
    if s == [] then None
    else if s[0] == c then Some(0)
    else match IndexOf(s[1..], c)
      case None => None
      case Some(i) =>
        assert s[..i + 1] == [s[0]] + s[1..][..i];
        Some(i + 1)
  }

  /**
   * The new search string for language `newLang` (already URI-encoded): a
   * fresh `?lang=`, a replaced first `lang` value, or `lang=...&` inserted
   * after the first `?`.
   */
  function RewriteSearch(search: string, newLang: string): string {
    if |search| <= 1 then "?lang=" + newLang
    else match FirstKey(search, "lang", 0)
      case Some(i) =>
        var start := i + 6;
        var stop := start + |UntilAmp(search[start..])|;
        search[..start] + newLang + search[stop..]
      case None =>
        match IndexOf(search, '?')
        case Some(q) => search[..q] + "?lang=" + newLang + "&" + search[q + 1..]
        case None => search
  }

  /**
   * With an existing `lang` term, only its first value changes: the replace
   * branch of the rewrite in closed form, a step towards `RewriteThenRead`.
   */
  lemma RewriteReplacesFirst(search: string, newLang: string)
    requires |search| > 1 && FirstKey(search, "lang", 0).Some?
    ensures var i := FirstKey(search, "lang", 0).value;
      var stop := i + 6 + |UntilAmp(search[i + 6..])|;
      RewriteSearch(search, newLang) == search[..i + 6] + newLang + search[stop..] &&
      (stop == |search| || search[stop] == '&')
  {
    var i := FirstKey(search, "lang", 0).value;
    var rest := search[i + 6..];
    var u := UntilAmp(rest);
    assert u == rest || rest[|u|] == '&';
    assert |u| < |rest| ==> search[i + 6 + |u|] == rest[|u|];
  }

  /** A value `x` right after the first `?lang=` or `&lang=` of `r`, ended by `&` or the end, is what is read. */
  lemma ReadAt(r: string, i: nat, x: string, tail: string, d: string)
    requires x != [] && '&' !in x && '+' !in x
    requires tail == [] || tail[0] == '&'
    requires KeyAt(r, "lang", i) && r[i + 6..] == x + tail
    requires forall k :: 0 <= k < i ==> !KeyAt(r, "lang", k)
    ensures GetStringParamFromUrl(r, "lang", d) == x
  {
    assert x[0] in x;
    assert r[i + 6] == x[0];
    assert FirstMatchAt(r, "lang", i);
    UntilAmpStops(x, tail);
    PlusToSpaceKeeps(x);
  }

  /** Two strings that agree up to `n` have the same `lang` keys starting at or before `n - 6`. */
  lemma KeysAgree(r: string, search: string, n: nat)
    requires n <= |r| && n <= |search| && r[..n] == search[..n]
    ensures forall k :: 0 <= k && k + 6 <= n ==> (KeyAt(r, "lang", k) <==> KeyAt(search, "lang", k))
  {
    forall k | 0 <= k && k + 6 <= n ensures KeyAt(r, "lang", k) <==> KeyAt(search, "lang", k) {
      assert r[k..k + 6] == r[..n][k..k + 6] == search[..n][k..k + 6] == search[k..k + 6];
    }
  }

  /** A search string made of `?lang=` and `rest` has its key at 0 and `rest` after it. */
  lemma LangKeyFirst(rest: string)
    ensures KeyAt("?lang=" + rest, "lang", 0)
    ensures ("?lang=" + rest)[6..] == rest
  {
    var r := "?lang=" + rest;
    assert r[..6] == "?lang=";
    forall j | 0 <= j < 4 ensures r[1..5][j] == "lang"[j] {
      assert r[1..5][j] == r[..6][j + 1];
    }
  }

  /** With an existing `lang` term the new value is read back. */
  lemma RewriteThenReadReplaced(search: string, newLang: string, d: string)
    requires |search| > 1 && FirstKey(search, "lang", 0).Some?
    requires newLang != [] && '&' !in newLang && '+' !in newLang
    ensures GetStringParamFromUrl(RewriteSearch(search, newLang), "lang", d) == newLang
  {
    var i := FirstKey(search, "lang", 0).value;
    var stop := i + 6 + |UntilAmp(search[i + 6..])|;
    RewriteReplacesFirst(search, newLang);
    ReplacedValueRead(search, i, stop, newLang, RewriteSearch(search, newLang), d);
  }

  /** The replaced value is what is read back. */
  lemma ReplacedValueRead(search: string, i: nat, stop: nat, newLang: string, r: string, d: string)
    requires KeyAt(search, "lang", i) && forall k :: 0 <= k < i ==> !KeyAt(search, "lang", k)
    requires i + 6 <= stop <= |search| && (stop == |search| || search[stop] == '&')
    requires newLang != [] && '&' !in newLang && '+' !in newLang
    requires r == search[..i + 6] + newLang + search[stop..]
    ensures GetStringParamFromUrl(r, "lang", d) == newLang
  {
    var start := i + 6;
    var tail := search[stop..];
    assert r[..start] == search[..start];
    KeysAgree(r, search, start);
    assert r[start..] == newLang + tail;
    ReadAt(r, i, newLang, tail, d);
  }

  /**
   * Without a `lang` term, `lang=...&` goes right after the leading `?`: the
   * insert branch of the rewrite in closed form, a step towards `RewriteThenRead`.
   */
  lemma RewriteInserts(search: string, newLang: string)
    requires |search| > 1 && search[0] == '?' && FirstKey(search, "lang", 0).None?
    ensures RewriteSearch(search, newLang) == "?lang=" + (newLang + ("&" + search[1..]))
  {
    calc {
      RewriteSearch(search, newLang);
      { assert IndexOf(search, '?') == Some(0); }
      search[..0] + "?lang=" + newLang + "&" + search[1..];
      { Regroup(search[..0], "?lang=", newLang, "&", search[1..]); }
      "?lang=" + (newLang + ("&" + search[1..]));
    }
  }

  lemma Regroup(e: string, a: string, b: string, c: string, d: string)
    requires e == []
    ensures e + a + b + c + d == a + (b + (c + d))
  {
  }

  /** Without a `lang` term the inserted one is read back. */
  lemma RewriteThenReadInserted(search: string, newLang: string, d: string)
    requires |search| > 1 && search[0] == '?' && FirstKey(search, "lang", 0).None?
    requires newLang != [] && '&' !in newLang && '+' !in newLang
    ensures GetStringParamFromUrl(RewriteSearch(search, newLang), "lang", d) == newLang
  {
    var tail := "&" + search[1..];
    var r := "?lang=" + (newLang + tail);
    assert GetStringParamFromUrl(r, "lang", d) == newLang by {
      LangKeyFirst(newLang + tail);
      ReadAt(r, 0, newLang, tail, d);
    }
    RewriteInserts(search, newLang);
  }

  /**
   * Reading `lang` back from a rewritten search string gives the new
   * language, for any value without `&` or `+` (which `encodeURIComponent`
   * never leaves).
   */
  lemma RewriteThenRead(search: string, newLang: string, defaultValue: string)
    requires search == [] || search[0] == '?'
    requires newLang != [] && '&' !in newLang && '+' !in newLang
    ensures GetStringParamFromUrl(RewriteSearch(search, newLang), "lang", defaultValue) == newLang
  {
    if |search| <= 1 {
      var r := "?lang=" + newLang;
      LangKeyFirst(newLang);
      assert newLang == newLang + [];
      ReadAt(r, 0, newLang, [], defaultValue);
    } else if FirstKey(search, "lang", 0).Some? {
      RewriteThenReadReplaced(search, newLang, defaultValue);
    } else {
      RewriteThenReadInserted(search, newLang, defaultValue);
    }
  }

  /** After a language change the reloaded page reads back the chosen language. */
  lemma ChangeLanguageRoundTrip(search: string, code: string)
    requires search == [] || search[0] == '?'
    requires code in LanguageName
    ensures GetLang(RewriteSearch(search, code)) == code
  {
    assert code == "en";
    assert '&' !in code && '+' !in code;
    RewriteThenRead(search, code, "");
  }

  // ---------------------------------------------------------------------------
  // `loadBlocks` (src/milo.js:88-113).
  // ---------------------------------------------------------------------------

  /** Where the initial blocks come from. */
  datatype LoadSource = Retrieve(key: string) | LoadOnce(text: XmlText) | DefaultXml(text: XmlText) | Restore

  /** A JavaScript string is truthy unless empty; serialised documents never are. */
  predicate Truthy(t: XmlText) { t.Text? || t.raw != "" }

  /**
   * The precedence of `loadBlocks`: a `#key` longer than the `#`, then the
   * one-time blocks of a language switch, then the default blocks, then the
   * local backup. `hash` is `location.hash` with its `#`.
   */
  function ChooseLoadSource(hash: string, loadOnce: Option<XmlText>, defaultXml: Option<XmlText>): (src: LoadSource)
    ensures |hash| > 1 ==> src == Retrieve(hash[1..])
    ensures src.LoadOnce? <==> |hash| <= 1 && loadOnce.Some? && Truthy(loadOnce.value)
    ensures src.LoadOnce? ==> src.text == loadOnce.value
    ensures src.DefaultXml? ==> defaultXml.Some? && src.text == defaultXml.value && Truthy(src.text)
    ensures src.Restore? <==>
      |hash| <= 1 && (loadOnce.None? || !Truthy(loadOnce.value)) && (defaultXml.None? || !Truthy(defaultXml.value))
  {
    if |hash| > 1 then Retrieve(hash[1..])
    else if loadOnce.Some? && Truthy(loadOnce.value) then LoadOnce(loadOnce.value)
    else if defaultXml.Some? && Truthy(defaultXml.value) then DefaultXml(defaultXml.value)
    else Restore
  }

  // ---------------------------------------------------------------------------
  // The language menu of `initLanguage` (src/milo.js:419-452).
  // ---------------------------------------------------------------------------

  /** An entry `[LANGUAGE_NAME[lang], lang]`. */
  datatype Language = Language(name: string, code: string)

  /** One `<option>` of the language menu. */
  datatype MenuOption = MenuOption(text: string, value: string, selected: bool)

  /**
   * JavaScript's `a < b` on strings: lexicographic by character. Characters
   * compare by code point; JavaScript compares UTF-16 code units, which
   * differs only for characters outside the Basic Multilingual Plane.
   */
  predicate Below(a: string, b: string) {
    if a == [] then b != []
    else if b == [] then false
    else if a[0] != b[0] then a[0] < b[0]
    else Below(a[1..], b[1..])
  }

  lemma {:induction false} BelowAsymmetric(a: string, b: string)
    ensures Below(a, b) ==> !Below(b, a)
  {
    if a != [] && b != [] && a[0] == b[0] {
      BelowAsymmetric(a[1..], b[1..]);
    }
  }

  /** No entry's name is below its predecessor's (the order `comp` asks for). */
  predicate SortedByName(s: seq<Language>) {
    forall i :: 0 < i < |s| ==> !Below(s[i].name, s[i - 1].name)
  }

  function InsertByName(x: Language, s: seq<Language>): (r: seq<Language>)
    requires SortedByName(s)
    ensures SortedByName(r)
    ensures multiset(r) == multiset(s) + multiset{x}
    ensures r[0] == x || (s != [] && r[0] == s[0])
  {
    if s == [] then [x]
    else if Below(s[0].name, x.name) then
      TailSorted(s);
      var rest := InsertByName(x, s[1..]);
      BelowAsymmetric(s[0].name, x.name);
      assert s == [s[0]] + s[1..];
      ConsSorted(s[0], rest);
      [s[0]] + rest
    else
      ConsSorted(x, s);
      [x] + s
  }

  lemma TailSorted(s: seq<Language>)
    requires s != [] && SortedByName(s)
    ensures SortedByName(s[1..])
  {
    assert forall i :: 0 <= i < |s| - 1 ==> s[1..][i] == s[i + 1];
  }

  /** Putting `a` before a sorted sequence whose head is not below it keeps it sorted. */
  lemma ConsSorted(a: Language, rest: seq<Language>)
    requires SortedByName(rest)
    requires rest != [] ==> !Below(rest[0].name, a.name)
    ensures SortedByName([a] + rest)
  {
    var r := [a] + rest;
    assert forall i :: 1 <= i < |r| ==> r[i] == rest[i - 1];
  }

  /** `languages.sort(comp)`. */
  function SortByName(s: seq<Language>): (r: seq<Language>)
    ensures SortedByName(r)
    ensures multiset(r) == multiset(s)
  {
    if s == [] then []
    else
      assert s == [s[0]] + s[1..];
      InsertByName(s[0], SortByName(s[1..]))
  }

  /** `s` holds every entry `[m[code], code]` exactly once, and nothing else. */
  ghost predicate ListsExactly(s: seq<Language>, m: map<string, string>) {
    forall l :: multiset(s)[l] == if l.code in m && l.name == m[l.code] then 1 else 0
  }

  /** Two positions holding the same value make it occur twice. */
  lemma TwiceCounted(s: seq<Language>, i: nat, j: nat)
    requires i < j < |s| && s[i] == s[j]
    ensures multiset(s)[s[i]] >= 2
  {
    assert s == s[..j] + [s[j]] + s[j + 1..];
    assert s[..j][i] == s[i];
    assert multiset(s[..j])[s[i]] >= 1;
  }

  /** A list that holds each entry of a map exactly once is a permutation of the map. */
  lemma ListsExactlyMeans(s: seq<Language>, m: map<string, string>)
    requires ListsExactly(s, m)
    ensures forall i :: 0 <= i < |s| ==> s[i].code in m && s[i].name == m[s[i].code]
    ensures forall c :: c in m ==> exists i :: 0 <= i < |s| && s[i].code == c
    ensures forall i, j :: 0 <= i < j < |s| ==> s[i].code != s[j].code
  {
    forall i | 0 <= i < |s| ensures s[i].code in m && s[i].name == m[s[i].code] {
      assert s[i] in multiset(s);
    }
    forall c | c in m ensures exists i :: 0 <= i < |s| && s[i].code == c {
      var l := Language(m[c], c);
      assert multiset(s)[l] == 1;
      assert l in s;
    }
    forall i, j | 0 <= i < j < |s| ensures s[i].code != s[j].code {
      if s[i].code == s[j].code {
        assert s[i] in multiset(s) && s[j] in multiset(s);
        TwiceCounted(s, i, j);
      }
    }
  }

  /** The `for (var lang in LANGUAGE_NAME)` loop: one entry per language, in enumeration order. */
  method CollectLanguages(languageName: map<string, string>) returns (languages: seq<Language>)
    ensures ListsExactly(languages, languageName)
  {
    languages := [];
    var remaining := languageName.Keys;
    while remaining != {}
      invariant remaining <= languageName.Keys
      invariant forall l :: multiset(languages)[l] ==
                            if l.code in languageName && l.code !in remaining && l.name == languageName[l.code] then 1 else 0
      decreases |remaining|
    {
      var code :| code in remaining;
      languages := languages + [Language(languageName[code], code)];
      remaining := remaining - {code};
    }
  }

  /** The option loop: one option per entry, selected when its code is `lang`. */
  method BuildMenu(languages: seq<Language>, lang: string) returns (menu: seq<MenuOption>)
    ensures |menu| == |languages|
    ensures forall k :: 0 <= k < |menu| ==>
      menu[k] == MenuOption(languages[k].name, languages[k].code, languages[k].code == lang)
  {
    menu := [];
    for i := 0 to |languages|
      invariant |menu| == i
      invariant forall k :: 0 <= k < i ==> menu[k] == MenuOption(languages[k].name, languages[k].code, languages[k].code == lang)
    {
      var tuple := languages[i];
      var option := MenuOption(tuple.name, tuple.code, tuple.code == lang);
      menu := menu + [option];
    }
  }

  /**
   * `initLanguage`'s menu: every language once, sorted by display name, with
   * exactly the options whose code is `lang` selected.
   */
  method InitLanguage(languageName: map<string, string>, lang: string) returns (menu: seq<MenuOption>)
    ensures forall i :: 0 <= i < |menu| ==>
      menu[i].value in languageName && menu[i].text == languageName[menu[i].value] &&
      (menu[i].selected <==> menu[i].value == lang)
    ensures forall c :: c in languageName ==> exists i :: 0 <= i < |menu| && menu[i].value == c
    ensures forall i, j :: 0 <= i < j < |menu| ==> menu[i].value != menu[j].value
    ensures forall i :: 0 < i < |menu| ==> !Below(menu[i].text, menu[i - 1].text)
    ensures lang in languageName ==>
      exists i :: 0 <= i < |menu| && menu[i].selected && forall j :: 0 <= j < |menu| && menu[j].selected ==> j == i
  {
    var languages := CollectLanguages(languageName);
    var sorted := SortByName(languages);
    assert ListsExactly(sorted, languageName);
    ListsExactlyMeans(sorted, languageName);
    menu := BuildMenu(sorted, lang);
    forall c | c in languageName ensures exists i :: 0 <= i < |menu| && menu[i].value == c {
      var i :| 0 <= i < |sorted| && sorted[i].code == c;
      assert menu[i].value == c;
    }
  }

  // ---------------------------------------------------------------------------
  // The page: one-time blocks and the tab bar (src/milo.js:88-139, 203-256).
  // ---------------------------------------------------------------------------

  /** The names of `Milo.TABS_`; a click names one of them, or its `tab_` element does not exist. */
  datatype Tab = Blocks | JavaScript | Data | XmlTab {
    function Name(): string {
      match this
      case Blocks => "blocks"
      case JavaScript => "javascript"
      case Data => "data"
      case XmlTab => "xml"
    }

    /** Its position in `Tabs`. */
    function Index(): (i: nat)
      ensures i < |Tabs| && Tabs[i] == this
    {
      match this
      case Blocks => 0
      case JavaScript => 1
      case Data => 2
      case XmlTab => 3
    }
  }

  /** `Milo.TABS_`, in order. */
  const Tabs: seq<Tab> := [Blocks, JavaScript, Data, XmlTab]

  /** The class name of a `tab_<name>` element. */
  datatype TabClass = TabOn | TabOff

  /** The loop of `tabClick` that switches every tab off and hides every pane. */
  method DeselectAll(tabClass: map<Tab, TabClass>, contentVisible: map<Tab, bool>)
    returns (classes: map<Tab, TabClass>, panes: map<Tab, bool>)
    ensures forall t: Tab :: t in classes && classes[t] == TabOff
    ensures forall t: Tab :: t in panes && !panes[t]
  {
    classes := tabClass;
    panes := contentVisible;
    for i := 0 to |Tabs|
      invariant forall t: Tab :: t.Index() < i ==> t in classes && classes[t] == TabOff && t in panes && !panes[t]
    {
      var name := Tabs[i];
      classes := classes[name := TabOff];
      panes := panes[name := false];
    }
  }

  class App {
    /** `sessionStorage.loadOnceBlocks`. */
    var loadOnceBlocks: Option<XmlText>
    var workspace: Xml
    var workspaceVisible: bool
    /** `Milo.selected`. */
    var selected: Tab
    /** The class name of each `tab_<name>` element. */
    var tabClass: map<Tab, TabClass>
    /** Whether each `content_<name>` pane is visible. */
    var contentVisible: map<Tab, bool>
    /** The text of the `content_xml` pane. */
    var xmlText: XmlText

    /** Exactly the selected tab is on and its pane is the visible one. */
    predicate Valid()
      reads this
    {
      (forall t: Tab :: t in tabClass && t in contentVisible) &&
      (forall t: Tab :: tabClass[t] == TabOn <==> t == selected) &&
      (forall t: Tab :: contentVisible[t] <==> t == selected)
    }

    /** The page as served: the blocks tab is open. */
    constructor (loadOnceBlocks: Option<XmlText>)
      ensures Valid() && selected == Blocks && workspaceVisible
      ensures this.loadOnceBlocks == loadOnceBlocks && workspace == []
    {
      this.loadOnceBlocks := loadOnceBlocks;
      workspace := [];
      workspaceVisible := true;
      selected := Blocks;
      tabClass := map[Blocks := TabOn, JavaScript := TabOff, Data := TabOff, XmlTab := TabOff];
      contentVisible := map[Blocks := true, JavaScript := false, Data := false, XmlTab := false];
      new;
      forall t: Tab ensures t in tabClass && t in contentVisible {
        match t
        case Blocks =>
        case JavaScript =>
        case Data =>
        case XmlTab =>
      }
      xmlText := Text([]);
    }

    /**
     * `loadBlocks`: decide the source; the one-time blocks are deleted before
     * they are parsed, so a malformed one is gone yet loads nothing.
     * `readable` is false when reading `sessionStorage` throws. `thrown` is
     * the exception `textToDom` raises on malformed one-time or default blocks,
     * which leaves `loadBlocks` without loading anything.
     */
    method LoadBlocks(hash: string, defaultXml: Option<XmlText>, readable: bool) returns (src: LoadSource, thrown: bool)
      modifies this`loadOnceBlocks, this`workspace
      ensures src == ChooseLoadSource(hash, if readable then old(loadOnceBlocks) else None, defaultXml)
      ensures thrown <==> (src.LoadOnce? || src.DefaultXml?) && src.text.Malformed?
      ensures src.LoadOnce? ==> loadOnceBlocks.None?
      ensures !src.LoadOnce? ==> loadOnceBlocks == old(loadOnceBlocks)
      ensures workspace == old(workspace) + match src
        case LoadOnce(Text(doc)) => doc
        case DefaultXml(Text(doc)) => doc
        case _ => []
    {
      var loadOnce := if readable then loadOnceBlocks else None;
      src := ChooseLoadSource(hash, loadOnce, defaultXml);
      if src.LoadOnce? {
        loadOnceBlocks := None;
      }
      thrown := false;
      if src.LoadOnce? || src.DefaultXml? {
        match src.text
        case Text(doc) => workspace := workspace + doc;
        case Malformed(_) => thrown := true;
      }
    }

    /**
     * `changeLanguage`: keep the blocks for the reload and answer the new
     * search string. `newLang` is the menu value after `encodeURIComponent`.
     */
    method ChangeLanguage(search: string, newLang: string, hasSessionStorage: bool) returns (newSearch: string)
      modifies this`loadOnceBlocks
      ensures hasSessionStorage ==> loadOnceBlocks == Some(Text(workspace))
      ensures !hasSessionStorage ==> loadOnceBlocks == old(loadOnceBlocks)
      ensures newSearch == RewriteSearch(search, newLang)
    {
      if hasSessionStorage {
        loadOnceBlocks := Some(Text(workspace));
      }
      newSearch := RewriteSearch(search, newLang);
    }

    /**
     * `tabClick`: leaving the XML tab applies its text; unparsable text asks
     * the user, and `confirmed == false` keeps everything as it is. Otherwise
     * every tab is switched off and then `clickedName` on.
     */
    method TabClick(clickedName: Tab, confirmed: bool) returns (switched: bool)
      requires Valid()
      modifies this`workspace, this`workspaceVisible, this`selected, this`tabClass, this`contentVisible
      ensures Valid()
      ensures switched <==> !(old(selected) == XmlTab && xmlText.Malformed? && !confirmed)
      ensures !switched ==>
        workspace == old(workspace) && workspaceVisible == old(workspaceVisible) && selected == old(selected) &&
        tabClass == old(tabClass) && contentVisible == old(contentVisible)
      ensures switched ==>
        selected == clickedName &&
        workspace == (if old(selected) == XmlTab && xmlText.Text? then xmlText.doc else old(workspace)) &&
        workspaceVisible == (clickedName == Blocks || (old(workspaceVisible) && old(selected) != Blocks))
    {
      if tabClass[XmlTab] == TabOn {
        if xmlText.Malformed? && !confirmed {
          return false;
        }
        if xmlText.Text? {
          workspace := xmlText.doc;
        }
      }
      if tabClass[Blocks] == TabOn {
        workspaceVisible := false;
      }
      Select(clickedName);
      if clickedName == Blocks {
        workspaceVisible := true;
      }
      switched := true;
    }

    /** Every tab switched off and its pane hidden, then `name` switched on and shown. */
    method Select(name: Tab)
      modifies this`selected, this`tabClass, this`contentVisible
      ensures Valid() && selected == name
    {
      var classes, panes := DeselectAll(tabClass, contentVisible);
      selected := name;
      tabClass := classes[name := TabOn];
      contentVisible := panes[name := true];
    }
  }
}
