/**
 * src/helpers.js: the string helpers `slugify`, `toTitleCase` and
 * `generateHash`, and the on-line flag of `Helpers.Network`.
 */
module Helpers {
  import opened Strings
  import opened Wrappers


  // ---------------------------------------------------------------------------
  // slugify: a chain of five regular-expression replacements on the
  // lower-cased text, each modelled by its own function.
  // ---------------------------------------------------------------------------

  /** Characters a slug may contain: `[a-z0-9_-]`. */
  predicate IsSlugChar(c: char) { IsLower(c) || IsDigit(c) || c == '_' || c == '-' }

  predicate AllSlugChars(s: string) { forall i :: 0 <= i < |s| ==> IsSlugChar(s[i]) }

  /** No two adjacent dashes. */
  predicate NoDoubleDash(s: string) { forall i :: 0 <= i < |s| - 1 ==> !(s[i] == '-' && s[i + 1] == '-') }

  predicate NoSpace(s: string) { forall i :: 0 <= i < |s| ==> !IsSpace(s[i]) }

  predicate NoUpper(s: string) { forall i :: 0 <= i < |s| ==> !IsUpper(s[i]) }

  predicate AllSpace(s: string) { forall i :: 0 <= i < |s| ==> IsSpace(s[i]) }

  /** What every slug satisfies. */
  predicate IsSlug(s: string) {
    AllSlugChars(s) && NoDoubleDash(s) && (s != [] ==> s[0] != '-' && s[|s| - 1] != '-')
  }

  /** Drops the leading run of white space. */
  function DropSpaces(s: string): (r: string)
    ensures |r| <= |s| && r == s[|s| - |r|..]
    ensures r != [] ==> !IsSpace(r[0])
  {
    if s != [] && IsSpace(s[0]) then DropSpaces(s[1..]) else s
  }

  /** `.replace(/\s+/g, '-')`: every maximal run of white space becomes a single `-`. */
  function DashSpaces(s: string): string
    decreases |s|
  {
    if s == [] then []
    else if IsSpace(s[0]) then "-" + DashSpaces(DropSpaces(s[1..]))
    else [s[0]] + DashSpaces(s[1..])
  }

  /** `.replace(/[^\w\-]+/g, '')`: removes every character that is neither a word character nor `-`. */
  function KeepWordAndDash(s: string): string {
    if s == [] then []
    else if IsWordChar(s[0]) || s[0] == '-' then [s[0]] + KeepWordAndDash(s[1..])
    else KeepWordAndDash(s[1..])
  }

  /** Drops the leading run of `-`: `.replace(/^-+/, '')`. */
  function DropDashes(s: string): (r: string)
    ensures |r| <= |s| && r == s[|s| - |r|..]
    ensures r != [] ==> r[0] != '-'
  {
    if s != [] && s[0] == '-' then DropDashes(s[1..]) else s
  }

  /** `.replace(/\-\-+/g, '-')`: every run of two or more `-` becomes a single `-`. */
  function SquashDashes(s: string): (r: string)
    ensures s != [] ==> r != [] && r[0] == s[0]
    decreases |s|
  {
    if s == [] then []
    else if s[0] == '-' then "-" + SquashDashes(DropDashes(s[1..]))
    else [s[0]] + SquashDashes(s[1..])
  }

  /** Drops the trailing run of `-`: `.replace(/-+$/, '')`. */
  function TrimEndDashes(s: string): (r: string)
    ensures r <= s
    ensures r != [] ==> r[|r| - 1] != '-'
  {
    if s != [] && s[|s| - 1] == '-' then TrimEndDashes(s[..|s| - 1]) else s
  }

  /** `Helpers.slugify` (src/helpers.js:32-39). */
  function Slugify(text: string): (r: string)
    ensures IsSlug(r)
  {
    var lowered := LowerAll(text);
    var dashed := DashSpaces(lowered);
    var kept := KeepWordAndDash(dashed);
    var squashed := SquashDashes(kept);
    SquashedChars(lowered);
    TrimmedIsSlug(squashed);
    TrimEndDashes(DropDashes(squashed))
  }

  /** The first three steps after lower-casing leave only slug characters and no `--`. */
  lemma SquashedChars(lowered: string)
    requires NoUpper(lowered)
    ensures AllSlugChars(SquashDashes(KeepWordAndDash(DashSpaces(lowered))))
    ensures NoDoubleDash(SquashDashes(KeepWordAndDash(DashSpaces(lowered))))
  {
    DashSpacesChars(lowered);
    KeepWordAndDashChars(DashSpaces(lowered));
    SquashDashesChars(KeepWordAndDash(DashSpaces(lowered)));
  }

  /** Trimming the dashes at both ends of such a string gives a slug. */
  lemma TrimmedIsSlug(squashed: string)
    requires AllSlugChars(squashed) && NoDoubleDash(squashed)
    ensures IsSlug(TrimEndDashes(DropDashes(squashed)))
  {
    var trimmed := DropDashes(squashed);
    var r := TrimEndDashes(trimmed);
    SuffixKeeps(squashed, |squashed| - |trimmed|);
    PrefixKeeps(trimmed, r);
    assert r != [] ==> r[0] == trimmed[0];
  }

  // Facts about the single steps.

  lemma ConsKeeps(c: char, t: string)
    ensures NoSpace([c] + t) <==> !IsSpace(c) && NoSpace(t)
    ensures NoUpper([c] + t) <==> !IsUpper(c) && NoUpper(t)
    ensures AllSlugChars([c] + t) <==> IsSlugChar(c) && AllSlugChars(t)
    ensures NoDoubleDash([c] + t) <==> NoDoubleDash(t) && !(c == '-' && t != [] && t[0] == '-')
  {
    ConsNoSpace(c, t);
    ConsNoUpper(c, t);
    ConsSlugChars(c, t);
    ConsNoDoubleDash(c, t);
  }

  lemma ConsNoSpace(c: char, t: string)
    ensures NoSpace([c] + t) <==> !IsSpace(c) && NoSpace(t)
  {
    ConsIndex(c, t);
  }

  lemma ConsNoUpper(c: char, t: string)
    ensures NoUpper([c] + t) <==> !IsUpper(c) && NoUpper(t)
  {
    ConsIndex(c, t);
  }

  lemma ConsSlugChars(c: char, t: string)
    ensures AllSlugChars([c] + t) <==> IsSlugChar(c) && AllSlugChars(t)
  {
    ConsIndex(c, t);
  }

  lemma ConsNoDoubleDash(c: char, t: string)
    ensures NoDoubleDash([c] + t) <==> NoDoubleDash(t) && !(c == '-' && t != [] && t[0] == '-')
  {
    ConsIndex(c, t);
  }

  lemma ConsIndex(c: char, t: string)
    ensures ([c] + t)[0] == c
    ensures forall i :: 0 <= i < |t| ==> ([c] + t)[i + 1] == t[i]
  {
  }

  lemma SuffixKeeps(s: string, k: nat)
    requires k <= |s|
    ensures NoUpper(s) ==> NoUpper(s[k..])
    ensures AllSlugChars(s) ==> AllSlugChars(s[k..])
    ensures NoDoubleDash(s) ==> NoDoubleDash(s[k..])
  {
    assert forall i :: 0 <= i < |s| - k ==> s[k..][i] == s[k + i];
  }

  lemma PrefixKeeps(s: string, p: string)
    requires p <= s
    ensures AllSlugChars(s) ==> AllSlugChars(p)
    ensures NoDoubleDash(s) ==> NoDoubleDash(p)
  {
    assert forall i :: 0 <= i < |p| ==> p[i] == s[i];
  }

  /** The white-space step leaves no white space and adds no upper-case letter. */
  lemma {:induction false} DashSpacesChars(s: string)
    ensures NoSpace(DashSpaces(s))
    ensures NoUpper(s) ==> NoUpper(DashSpaces(s))
    decreases |s|
  {
    if s != [] {
      if IsSpace(s[0]) {
        var rest := DropSpaces(s[1..]);
        SuffixKeeps(s, |s| - |rest|);
        DashSpacesChars(rest);
        ConsKeeps('-', DashSpaces(rest));
      } else {
        SuffixKeeps(s, 1);
        DashSpacesChars(s[1..]);
        ConsKeeps(s[0], DashSpaces(s[1..]));
      }
    }
  }

  /** Only word characters and `-` survive the filtering step. */
  lemma {:induction false} KeepWordAndDashChars(s: string)
    requires NoUpper(s)
    ensures AllSlugChars(KeepWordAndDash(s))
  {
    if s != [] {
      SuffixKeeps(s, 1);
      KeepWordAndDashChars(s[1..]);
      if IsWordChar(s[0]) || s[0] == '-' {
        ConsKeeps(s[0], KeepWordAndDash(s[1..]));
      }
    }
  }

  /** Squashing leaves no `--` and adds no character outside the slug alphabet. */
  lemma {:induction false} SquashDashesChars(s: string)
    ensures NoDoubleDash(SquashDashes(s))
    ensures AllSlugChars(s) ==> AllSlugChars(SquashDashes(s))
    decreases |s|
  {
    if s != [] {
      if s[0] == '-' {
        var rest := DropDashes(s[1..]);
        SuffixKeeps(s, |s| - |rest|);
        SquashDashesChars(rest);
        ConsKeeps('-', SquashDashes(rest));
      } else {
        SuffixKeeps(s, 1);
        SquashDashesChars(s[1..]);
        ConsKeeps(s[0], SquashDashes(s[1..]));
      }
    }
  }

  // Each run of white space, however long, becomes exactly one `-`.

  lemma {:induction false} DashSpacesRun(x: string, w: string, y: string)
    requires w != [] && AllSpace(w)
    requires x != [] ==> !IsSpace(x[|x| - 1])
    requires y != [] ==> !IsSpace(y[0])
    ensures DashSpaces(x + w + y) == DashSpaces(x) + "-" + DashSpaces(y)
    decreases |x|, 1
  {
    if x == [] {
      calc {
        DashSpaces(x + w + y);
        { assert x + w + y == w + y; }
        DashSpaces(w + y);
        { DashSpacesRunEmpty(w, y); }
        "-" + DashSpaces(y);
        { assert DashSpaces(x) == []; }
        DashSpaces(x) + "-" + DashSpaces(y);
      }
    } else if !IsSpace(x[0]) {
      DashSpacesRunWord(x, w, y);
    } else {
      DashSpacesRunLeadingSpace(x, w, y);
    }
  }

  lemma {:induction false} DashSpacesRunEmpty(w: string, y: string)
    requires w != [] && AllSpace(w)
    requires y != [] ==> !IsSpace(y[0])
    ensures DashSpaces(w + y) == "-" + DashSpaces(y)
  {
    var s := w + y;
    assert s[0] == w[0];
    assert s[1..] == w[1..] + y;
    assert AllSpace(w[1..]) by {
      assert forall i :: 0 <= i < |w| - 1 ==> w[1..][i] == w[i + 1];
    }
    DropSpacesOfRun(w[1..], y);
    assert DashSpaces(s) == "-" + DashSpaces(y);
  }

  lemma {:induction false} DashSpacesRunWord(x: string, w: string, y: string)
    requires w != [] && AllSpace(w)
    requires x != [] && !IsSpace(x[0]) && !IsSpace(x[|x| - 1])
    requires y != [] ==> !IsSpace(y[0])
    ensures DashSpaces(x + w + y) == DashSpaces(x) + "-" + DashSpaces(y)
    decreases |x|, 0
  {
    assert x[1..] != [] ==> x[1..][|x[1..]| - 1] == x[|x| - 1];
    calc {
      DashSpaces(x + w + y);
      { assert (x + w + y)[0] == x[0]; }
      [x[0]] + DashSpaces((x + w + y)[1..]);
      { assert (x + w + y)[1..] == x[1..] + w + y; }
      [x[0]] + DashSpaces(x[1..] + w + y);
      { DashSpacesRun(x[1..], w, y); }
      [x[0]] + (DashSpaces(x[1..]) + "-" + DashSpaces(y));
      { SeqAssoc([x[0]], DashSpaces(x[1..]), "-", DashSpaces(y)); }
      ([x[0]] + DashSpaces(x[1..])) + "-" + DashSpaces(y);
      DashSpaces(x) + "-" + DashSpaces(y);
    }
  }

  lemma {:induction false} DashSpacesRunLeadingSpace(x: string, w: string, y: string)
    requires w != [] && AllSpace(w)
    requires x != [] && IsSpace(x[0]) && !IsSpace(x[|x| - 1])
    requires y != [] ==> !IsSpace(y[0])
    ensures DashSpaces(x + w + y) == DashSpaces(x) + "-" + DashSpaces(y)
    decreases |x|, 0
  {
    var x' := LeadingSpaceStep(x, w + y);
    calc {
      DashSpaces(x + w + y);
      { Assoc3(x, w, y); }
      DashSpaces(x + (w + y));
      "-" + DashSpaces(x' + (w + y));
      { Assoc3(x', w, y); }
      "-" + DashSpaces(x' + w + y);
      { DashSpacesRun(x', w, y); }
      "-" + (DashSpaces(x') + "-" + DashSpaces(y));
      { SeqAssoc("-", DashSpaces(x'), "-", DashSpaces(y)); }
      DashSpaces(x) + "-" + DashSpaces(y);
    }
  }

  /** Dashing a string that opens with white space drops the whole leading run, whatever follows. */
  lemma LeadingSpaceStep(x: string, v: string) returns (x': string)
    requires x != [] && IsSpace(x[0]) && !IsSpace(x[|x| - 1])
    ensures x' == DropSpaces(x[1..]) && x' != [] && x'[|x'| - 1] == x[|x| - 1] && |x'| < |x|
    ensures DashSpaces(x) == "-" + DashSpaces(x')
    ensures DashSpaces(x + v) == "-" + DashSpaces(x' + v)
  {
    assert x[1..][|x| - 2] == x[|x| - 1];
    DropSpacesKeepsLast(x[1..]);
    x' := DropSpaces(x[1..]);
    TailOfAppend(x, v);
    DropSpacesAppend(x[1..], v);
  }

  lemma {:induction false} DropSpacesKeepsLast(s: string)
    requires s != [] && !IsSpace(s[|s| - 1])
    ensures DropSpaces(s) != [] && DropSpaces(s)[|DropSpaces(s)| - 1] == s[|s| - 1]
  {
    if IsSpace(s[0]) {
      assert s[1..][|s| - 2] == s[|s| - 1];
      DropSpacesKeepsLast(s[1..]);
    }
  }

  lemma TailOfAppend(a: string, b: string)
    requires a != []
    ensures (a + b)[0] == a[0] && (a + b)[1..] == a[1..] + b
  {
  }

  lemma Assoc3(a: string, b: string, c: string)
    ensures a + (b + c) == a + b + c
  {
  }

  lemma SeqAssoc(a: string, b: string, c: string, d: string)
    ensures a + (b + c + d) == (a + b) + c + d
  {
  }

  lemma {:induction false} DropSpacesOfRun(w: string, y: string)
    requires AllSpace(w)
    requires y != [] ==> !IsSpace(y[0])
    ensures DropSpaces(w + y) == y
  {
    if w == [] {
      assert w + y == y;
    } else {
      assert (w + y)[0] == w[0];
      assert (w + y)[1..] == w[1..] + y;
      assert AllSpace(w[1..]) by {
        assert forall i :: 0 <= i < |w| - 1 ==> w[1..][i] == w[i + 1];
      }
      DropSpacesOfRun(w[1..], y);
    }
  }

  lemma {:induction false} DropSpacesAppend(a: string, b: string)
    requires DropSpaces(a) != []
    ensures DropSpaces(a + b) == DropSpaces(a) + b
  {
    if a != [] && IsSpace(a[0]) {
      assert (a + b)[0] == a[0];
      assert (a + b)[1..] == a[1..] + b;
      DropSpacesAppend(a[1..], b);
    } else {
      assert a != [] && (a + b)[0] == a[0];
    }
  }

  // slugify is idempotent: a slug is its own slug.

  lemma LowerAllOfLower(s: string)
    requires NoUpper(s)
    ensures LowerAll(s) == s
  {
    assert forall i :: 0 <= i < |s| ==> LowerAll(s)[i] == s[i];
  }

  lemma {:induction false} DashSpacesOfNoSpace(s: string)
    requires NoSpace(s)
    ensures DashSpaces(s) == s
  {
    if s != [] {
      ConsKeeps(s[0], s[1..]);
      assert s == [s[0]] + s[1..];
      DashSpacesOfNoSpace(s[1..]);
    }
  }

  lemma {:induction false} KeepWordAndDashOfSlug(s: string)
    requires AllSlugChars(s)
    ensures KeepWordAndDash(s) == s
  {
    if s != [] {
      ConsKeeps(s[0], s[1..]);
      assert s == [s[0]] + s[1..];
      KeepWordAndDashOfSlug(s[1..]);
    }
  }

  lemma {:induction false} SquashDashesOfSquashed(s: string)
    requires NoDoubleDash(s)
    ensures SquashDashes(s) == s
    decreases |s|
  {
    if s != [] {
      ConsKeeps(s[0], s[1..]);
      assert s == [s[0]] + s[1..];
      if s[0] == '-' {
        assert DropDashes(s[1..]) == s[1..];
      }
      SquashDashesOfSquashed(s[1..]);
    }
  }

  /** Every slug is its own slug: no step of the chain changes it. */
  lemma SlugFixedPoint(t: string)
    requires IsSlug(t)
    ensures Slugify(t) == t
  {
    assert NoUpper(t) && NoSpace(t) by {
      forall i | 0 <= i < |t| ensures !IsUpper(t[i]) && !IsSpace(t[i]) {
        assert IsSlugChar(t[i]);
      }
    }
    LowerAllOfLower(t);
    DashSpacesOfNoSpace(t);
    KeepWordAndDashOfSlug(t);
    SquashDashesOfSquashed(t);
    assert DropDashes(t) == t;
    assert TrimEndDashes(t) == t;
  }

  lemma SlugifyIdempotent(text: string)
    ensures Slugify(Slugify(text)) == Slugify(text)
  {
    SlugFixedPoint(Slugify(text));
  }

  // ---------------------------------------------------------------------------
  // toTitleCase: `str.replace(/\w\S*/g, txt => upper(txt[0]) + lower(txt[1..]))`.
  // ---------------------------------------------------------------------------

  /** Length of the leading run of non white-space characters. */
  function NonSpaceRun(s: string): (n: nat)
    ensures n <= |s|
    ensures forall i :: 0 <= i < n ==> !IsSpace(s[i])
    ensures n < |s| ==> IsSpace(s[n])
  {
    if s == [] || IsSpace(s[0]) then 0 else 1 + NonSpaceRun(s[1..])
  }

  /**
   * `Helpers.toTitleCase` (src/helpers.js:18-22). The global regular expression
   * scans left to right; each match starts at a word character and extends over
   * the following non white-space characters.
   */
  function TitleCase(s: string): (r: string)
    ensures |r| == |s|
    decreases |s|
  {
    if s == [] then []
    else if IsWordChar(s[0]) then
      var n := NonSpaceRun(s);
      [ToUpper(s[0])] + LowerAll(s[1..n]) + TitleCase(s[n..])
    else [s[0]] + TitleCase(s[1..])
  }

  /**
   * A character-by-character reading of the same rule, as the reference for
   * `TitleCase`: `inRun` holds while inside a run that began at a word character
   * and has not yet met white space.
   */
  function TitleScan(s: string, inRun: bool): (r: string)
    ensures |r| == |s|
  {
    if s == [] then []
    else if IsSpace(s[0]) then [s[0]] + TitleScan(s[1..], false)
    else if inRun then [ToLower(s[0])] + TitleScan(s[1..], true)
    else if IsWordChar(s[0]) then [ToUpper(s[0])] + TitleScan(s[1..], true)
    else [s[0]] + TitleScan(s[1..], false)
  }

  lemma SlicesOfTail(t: string, k: nat)
    requires 1 <= k <= |t|
    ensures t[1..][..k - 1] == t[1..k] && t[1..][k - 1..] == t[k..]
    ensures t[..k][0] == t[0] && t[..k][1..] == t[1..k]
  {
  }

  lemma {:induction false} ScanInsideRun(t: string, k: nat)
    requires k <= |t|
    requires forall i :: 0 <= i < k ==> !IsSpace(t[i])
    requires k < |t| ==> IsSpace(t[k])
    ensures TitleScan(t, true) == LowerAll(t[..k]) + TitleScan(t[k..], false)
  {
    if k == 0 {
      assert t[..k] == [] && t[k..] == t;
    } else {
      var l := ToLower(t[0]);
      assert forall i :: 0 <= i < k - 1 ==> !IsSpace(t[1..][i]) by {
        assert forall i :: 0 <= i < k - 1 ==> t[1..][i] == t[i + 1];
      }
      SlicesOfTail(t, k);
      calc {
        TitleScan(t, true);
        [l] + TitleScan(t[1..], true);
        { ScanInsideRun(t[1..], k - 1); }
        [l] + (LowerAll(t[1..][..k - 1]) + TitleScan(t[1..][k - 1..], false));
        [l] + (LowerAll(t[1..k]) + TitleScan(t[k..], false));
        { Assoc3([l], LowerAll(t[1..k]), TitleScan(t[k..], false)); }
        [l] + LowerAll(t[1..k]) + TitleScan(t[k..], false);
        LowerAll(t[..k]) + TitleScan(t[k..], false);
      }
    }
  }

  /** Past the first character of a run of length `n`, the scan lower-cases the rest of the run. */
  lemma RunAfterFirst(s: string, n: nat)
    requires s != [] && n == NonSpaceRun(s) && n >= 1
    ensures TitleScan(s[1..], true) == LowerAll(s[1..n]) + TitleScan(s[n..], false)
  {
    var t := s[1..];
    assert forall i :: 0 <= i < n - 1 ==> t[i] == s[i + 1];
    ScanInsideRun(t, n - 1);
    assert t[..n - 1] == s[1..n];
    assert t[n - 1..] == s[n..];
  }

  /**
   * The first character of each run is upper-cased, the rest of the run
   * lower-cased, and every other character kept.
   */
  lemma {:induction false} TitleCaseIsScan(s: string)
    ensures TitleCase(s) == TitleScan(s, false)
    decreases |s|
  {
    if s != [] {
      if IsWordChar(s[0]) {
        var n := NonSpaceRun(s);
        var u := ToUpper(s[0]);
        calc {
          TitleScan(s, false);
          [u] + TitleScan(s[1..], true);
          { RunAfterFirst(s, n); }
          [u] + (LowerAll(s[1..n]) + TitleScan(s[n..], false));
          { TitleCaseIsScan(s[n..]); }
          [u] + (LowerAll(s[1..n]) + TitleCase(s[n..]));
          { Assoc3([u], LowerAll(s[1..n]), TitleCase(s[n..])); }
          TitleCase(s);
        }
      } else {
        TitleCaseIsScan(s[1..]);
      }
    }
  }

  // ---------------------------------------------------------------------------
  // generateHash: the 31-multiplier string hash over 32-bit integers.
  // ---------------------------------------------------------------------------

  /** A UTF-16 code unit, as `charCodeAt` returns. */
  type CodeUnit = x: int | 0 <= x < 0x1_0000

  const TWO32: int := 0x1_0000_0000
  const MIN32: int := -0x8000_0000

  predicate IsInt32(x: int) { MIN32 <= x < -MIN32 }

  /** ECMAScript ToInt32, what `x | 0` computes. */
  function Wrap32(x: int): (r: int)
    ensures IsInt32(r)
    ensures (r - x) % TWO32 == 0
  {
    (x - MIN32) % TWO32 + MIN32
  }

  lemma Wrap32Congruent(x: int, y: int)
    requires (x - y) % TWO32 == 0
    ensures Wrap32(x) == Wrap32(y)
  {
    var k := (x - y) / TWO32;
    assert x - MIN32 == (y - MIN32) + k * TWO32;
    ModShift(y - MIN32, k);
  }

  lemma ModShift(a: int, k: int)
    ensures (a + k * TWO32) % TWO32 == a % TWO32
  {
    var q := a / TWO32;
    var m := a % TWO32;
    assert a + k * TWO32 == (q + k) * TWO32 + m;
  }

  /** The hash after consuming `s`: `h := ToInt32(31 * h + code)` for each code unit. */
  function StringHash(s: seq<CodeUnit>): (h: int)
    ensures IsInt32(h)
  {
    if s == [] then 0 else Wrap32(31 * StringHash(s[..|s| - 1]) + s[|s| - 1])
  }

  /** The same polynomial without wrapping: sum of `s[i] * 31^(|s|-1-i)`. */
  function Polynomial(s: seq<CodeUnit>): int {
    if s == [] then 0 else 31 * Polynomial(s[..|s| - 1]) + s[|s| - 1]
  }

  /** Wrapping at every step gives the same result as wrapping once at the end. */
  lemma {:induction false} StringHashIsWrappedPolynomial(s: seq<CodeUnit>)
    ensures StringHash(s) == Wrap32(Polynomial(s))
  {
    if s != [] {
      var p := s[..|s| - 1];
      StringHashIsWrappedPolynomial(p);
      WrapStep(StringHash(p), Polynomial(p), s[|s| - 1]);
    }
  }

  /** One step of the hash respects congruence modulo 2^32. */
  lemma WrapStep(h: int, p: int, c: int)
    requires (h - p) % TWO32 == 0
    ensures Wrap32(31 * h + c) == Wrap32(31 * p + c)
  {
    var k := (h - p) / TWO32;
    assert h == p + k * TWO32;
    assert 31 * h + c == (31 * p + c) + (31 * k) * TWO32;
    ModShift(0, 31 * k);
    Wrap32Congruent(31 * h + c, 31 * p + c);
  }

  /**
   * `Helpers.generateHash(str)` (src/helpers.js:41-50). The loop reads its
   * receiver `this`, not its argument; `receiver` is `None` for a receiver
   * without a `length` (such as the `Helpers` object itself), for which the
   * loop does not run.
   */
  method GenerateHash(receiver: Option<seq<CodeUnit>>, str: string) returns (hash: int)
    ensures receiver.None? ==> hash == 0
    ensures receiver.Some? ==> hash == StringHash(receiver.value)
    ensures IsInt32(hash)
  {
    hash := 0;
    if receiver.None? {
      return;
    }
    var s := receiver.value;
    if |s| == 0 {
      return;
    }
    var i := 0;
    while i < |s|
      invariant 0 <= i <= |s|
      invariant hash == StringHash(s[..i])
    {
      var chr := s[i];
      var shifted := Wrap32(hash * 32);
      var next := shifted - hash + chr;
      Wrap32Congruent(next, 31 * hash + chr);
      hash := Wrap32(next);
      assert s[..i + 1][..i] == s[..i];
      i := i + 1;
    }
    assert s[..i] == s;
  }

  // ---------------------------------------------------------------------------
  // Helpers.Network: the on-line flag flipped by the browser's events.
  // ---------------------------------------------------------------------------

  class Network {
    var isOnline: bool
    /** Headers of the alerts shown, oldest first. */
    var alerts: seq<string>

    /** `Helpers.Network.isOnline = window.navigator.onLine` (src/helpers.js:72). */
    constructor (navigatorOnLine: bool)
      ensures isOnline == navigatorOnLine && alerts == []
    {
      isOnline := navigatorOnLine;
      alerts := [];
    }

    /** `showOfflineAlert` (src/helpers.js:73-76). */
    method ShowOfflineAlert()
      modifies this
      ensures !isOnline
      ensures alerts == old(alerts) + ["Internet Disconnected"]
    {
      isOnline := false;
      alerts := alerts + ["Internet Disconnected"];
    }

    /** `showOnlineAlert` (src/helpers.js:78-81). */
    method ShowOnlineAlert()
      modifies this
      ensures isOnline
      ensures alerts == old(alerts) + ["You are back online!"]
    {
      isOnline := true;
      alerts := alerts + ["You are back online!"];
    }
  }
}
