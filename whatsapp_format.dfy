/**
 * `format_text_for_whatsapp`: a fixed chain of regular-expression substitutions that turns
 * Markdown-style emphasis into WhatsApp's dialect. Each substitution is modelled by the scan
 * Python's `re.sub` performs for that one pattern, not by a general regex engine:
 *  - `D(.*?)D -> L\1R`: at the leftmost position where `D` starts, the lazy group ends at the
 *    first later occurrence of `D` (without crossing a newline unless DOTALL is set); the scan
 *    then resumes after the closing `D`, so matches never overlap;
 *  - `^\s*[*-]\s+ -> "* "` under MULTILINE: tried only at the start of the text or just after a
 *    newline of the original text, with both whitespace runs taken greedily.
 */
module WhatsAppFormat {

  import opened Wrappers

  /** `d` occurs in `t` at position `i`; `StartsAtSlice` restates it on slices. */
  predicate StartsAt(t: string, d: string, i: nat)
  {
    i + |d| <= |t| && AgreeFrom(t, d, i, 0)
  }

  /** `t[i + m..i + |d|]` and `d[m..]` agree character by character. */
  predicate AgreeFrom(t: string, d: string, i: nat, m: nat)
    requires i + |d| <= |t| && m <= |d|
    decreases |d| - m
  {
    m == |d| || (t[i + m] == d[m] && AgreeFrom(t, d, i, m + 1))
  }

  /** `AgreeFrom` is slice equality. */
  lemma {:induction false} AgreeFromSlice(t: string, d: string, i: nat, m: nat)
    requires i + |d| <= |t| && m <= |d|
    ensures AgreeFrom(t, d, i, m) <==> t[i + m..i + |d|] == d[m..]
    decreases |d| - m
  {
    if m < |d| {
      AgreeFromSlice(t, d, i, m + 1);
      assert t[i + m..i + |d|] == [t[i + m]] + t[i + m + 1..i + |d|];
      assert d[m..] == [d[m]] + d[m + 1..];
    }
  }

  /** `StartsAt` is slice equality. */
  lemma StartsAtSlice(t: string, d: string, i: nat)
    ensures StartsAt(t, d, i) <==> i + |d| <= |t| && t[i..i + |d|] == d
  {
    if i + |d| <= |t| {
      AgreeFromSlice(t, d, i, 0);
    }
  }

  /** Where the lazy group `(.*?)` that starts at `j` stops: the first `k >= j` at which the
   *  closing delimiter `d` starts, provided every character of `t[j..k]` matches `.`
   *  (anything but a newline, or anything at all under DOTALL). `CloseAtLeftmost` states this. */
  function CloseAt(t: string, d: string, dotAll: bool, j: nat): (r: Option<nat>)
    requires j <= |t|
    decreases |t| - j
    ensures r.Some? ==> j <= r.value && StartsAt(t, d, r.value)
  {
    if StartsAt(t, d, j) then Some(j)
    else if j == |t| || (!dotAll && t[j] == '\n') then None
    else CloseAt(t, d, dotAll, j + 1)
  }

  /** The lazy group stops at the leftmost closing delimiter it can reach, and fails only
   *  when a newline (outside DOTALL) comes before every later occurrence of the delimiter. */
  lemma {:induction false} CloseAtLeftmost(t: string, d: string, dotAll: bool, j: nat)
    requires j <= |t|
    decreases |t| - j
    ensures CloseAt(t, d, dotAll, j).Some? ==>
              forall m :: j <= m < CloseAt(t, d, dotAll, j).value ==> !StartsAt(t, d, m)
    ensures CloseAt(t, d, dotAll, j).Some? && !dotAll ==> '\n' !in t[j..CloseAt(t, d, dotAll, j).value]
    ensures CloseAt(t, d, dotAll, j).None? ==>
              forall k :: j <= k <= |t| && StartsAt(t, d, k) ==> !dotAll && '\n' in t[j..k]
  {
    if StartsAt(t, d, j) {
    } else if j == |t| || (!dotAll && t[j] == '\n') {
      if j < |t| {
        forall k | j <= k <= |t| && StartsAt(t, d, k) ensures '\n' in t[j..k] {
          assert t[j..k][0] == t[j];
        }
      }
    } else {
      CloseAtLeftmost(t, d, dotAll, j + 1);
      var r := CloseAt(t, d, dotAll, j + 1);
      if r.Some? {
        assert t[j..r.value] == [t[j]] + t[j + 1..r.value];
      } else {
        forall k | j <= k <= |t| && StartsAt(t, d, k) ensures !dotAll && '\n' in t[j..k] {
          assert t[j..k] == [t[j]] + t[j + 1..k];
        }
      }
    }
  }

  /** `re.sub(D + "(.*?)" + D, L + r"\1" + R, t[i..])` as a left-to-right scan from `i`. */
  function Sub(t: string, d: string, l: string, r: string, dotAll: bool, i: nat): string
    requires |d| > 0 && i <= |t|
    decreases |t| - i
  {
    if i == |t| then []
    else if StartsAt(t, d, i) && CloseAt(t, d, dotAll, i + |d|).Some? then
      var k := CloseAt(t, d, dotAll, i + |d|).value;
      l + t[i + |d|..k] + r + Sub(t, d, l, r, dotAll, k + |d|)
    else
      [t[i]] + Sub(t, d, l, r, dotAll, i + 1)
  }

  /** How many replacements the scan of `Sub` from `i` makes. */
  function Matches(t: string, d: string, dotAll: bool, i: nat): nat
    requires |d| > 0 && i <= |t|
    decreases |t| - i
  {
    if i == |t| then 0
    else if StartsAt(t, d, i) && CloseAt(t, d, dotAll, i + |d|).Some? then
      1 + Matches(t, d, dotAll, CloseAt(t, d, dotAll, i + |d|).value + |d|)
    else
      Matches(t, d, dotAll, i + 1)
  }

  /** Python's `\s` (and `str.isspace`): the Unicode whitespace characters. */
  predicate IsSpace(c: char)
  {
    c == ' ' || '\t' <= c <= '\r' || '\U{1C}' <= c <= '\U{1F}' || c == '\U{85}' || c == '\U{A0}'
    || c == '\U{1680}' || '\U{2000}' <= c <= '\U{200A}' || c == '\U{2028}' || c == '\U{2029}'
    || c == '\U{202F}' || c == '\U{205F}' || c == '\U{3000}'
  }

  predicate AllSpace(s: string)
  {
    forall m :: 0 <= m < |s| ==> IsSpace(s[m])
  }

  /** Every character of `t[a..b]` is whitespace. */
  predicate SpaceRun(t: string, a: nat, b: nat)
    requires b <= |t|
  {
    forall m :: a <= m < b ==> IsSpace(t[m])
  }

  /** `^` under MULTILINE: the start of the text or just after a newline. */
  predicate LineStart(t: string, i: nat)
  {
    i == 0 || (i <= |t| && t[i - 1] == '\n')
  }

  /** The end of the greedy whitespace run that starts at `j`. */
  function SpanSpaces(t: string, j: nat): (k: nat)
    requires j <= |t|
    decreases |t| - j
    ensures j <= k <= |t| && SpaceRun(t, j, k)
    ensures k == |t| || !IsSpace(t[k])
  {
    if j < |t| && IsSpace(t[j]) then SpanSpaces(t, j + 1) else j
  }

  /** `t[i..e]` is a match of `^\s*[*-]\s+` whose trailing whitespace run is maximal. */
  ghost predicate BulletAt(t: string, i: nat, e: nat)
  {
    && LineStart(t, i) && e <= |t| && (e == |t| || !IsSpace(t[e]))
    && exists w :: i <= w && w + 1 < e && SpaceRun(t, i, w) && (t[w] == '*' || t[w] == '-')
                   && SpaceRun(t, w + 1, e)
  }

  /** The end of the match of `^\s*[*-]\s+` at `i`, if there is one. It is the only match
   *  with a maximal trailing run, which is the one the greedy `\s+` takes. */
  function BulletMatch(t: string, i: nat): (r: Option<nat>)
    requires i <= |t|
    ensures r.Some? ==> i + 2 <= r.value && BulletAt(t, i, r.value)
    ensures forall e: nat :: BulletAt(t, i, e) ==> r == Some(e)
  {
    if !LineStart(t, i) then None
    else
      var w := SpanSpaces(t, i);
      if w + 1 < |t| && (t[w] == '*' || t[w] == '-') && IsSpace(t[w + 1]) then
        var e := SpanSpaces(t, w + 1);
        assert BulletAt(t, i, e);
        BulletUnique(t, i, w);
        Some(e)
      else
        BulletUnique(t, i, w);
        None
  }

  /** Any match at `i` has its marker at the end of the leading whitespace run `w` and ends
   *  at the end of the whitespace run after the marker. */
  lemma BulletUnique(t: string, i: nat, w: nat)
    requires i <= w <= |t| && SpaceRun(t, i, w) && (w == |t| || !IsSpace(t[w]))
    ensures forall e: nat :: BulletAt(t, i, e) ==>
              w + 1 < e && (t[w] == '*' || t[w] == '-') && IsSpace(t[w + 1]) && e == SpanSpaces(t, w + 1)
  {
    forall e: nat | BulletAt(t, i, e)
      ensures w + 1 < e && (t[w] == '*' || t[w] == '-') && IsSpace(t[w + 1]) && e == SpanSpaces(t, w + 1)
    {
      var v :| i <= v && v + 1 < e && SpaceRun(t, i, v) && (t[v] == '*' || t[v] == '-')
                && SpaceRun(t, v + 1, e);
      assert v == w;
    }
  }

  /** `re.sub(r"^\s*[*-]\s+", "* ", t[i..], flags=re.MULTILINE)` as a scan from `i`. Every
   *  match is at least two characters long and is replaced by two, so the text never grows. */
  function BulletSub(t: string, i: nat): (r: string)
    requires i <= |t|
    decreases |t| - i
    ensures |r| <= |t| - i
  {
    if i == |t| then []
    else
      match BulletMatch(t, i)
      case Some(e) => "* " + BulletSub(t, e)
      case None => [t[i]] + BulletSub(t, i + 1)
  }

  // The passes of format_text_for_whatsapp, in order. A pass that turns a two-character
  // delimiter into one-character ones shortens the text by two per match; a pass that writes
  // each match back with its own delimiters is the identity.

  function BoldStars(t: string): (r: string)
    ensures |r| == |t| - 2 * Matches(t, "**", false, 0)
  {
    SubLength(t, "**", "*", "*", false, 0);
    ScaleProduct(Matches(t, "**", false, 0), -2);
    Sub(t, "**", "*", "*", false, 0)
  }

  function BoldUnderscores(t: string): (r: string)
    ensures |r| == |t| - 2 * Matches(t, "__", false, 0)
  {
    SubLength(t, "__", "*", "*", false, 0);
    ScaleProduct(Matches(t, "__", false, 0), -2);
    Sub(t, "__", "*", "*", false, 0)
  }

  function ItalicStars(t: string): (r: string)
    ensures |r| == |t|
  {
    SubLength(t, "*", "_", "_", false, 0);
    ScaleProduct(Matches(t, "*", false, 0), 0);
    Sub(t, "*", "_", "_", false, 0)
  }

  function ItalicUnderscores(t: string): (r: string)
    ensures r == t
  {
    SubIdentity(t, "_", false, 0);
    Sub(t, "_", "_", "_", false, 0)
  }

  function Strikethrough(t: string): (r: string)
    ensures |r| == |t| - 2 * Matches(t, "~~", false, 0)
  {
    SubLength(t, "~~", "~", "~", false, 0);
    ScaleProduct(Matches(t, "~~", false, 0), -2);
    Sub(t, "~~", "~", "~", false, 0)
  }

  function CodeBlocks(t: string): (r: string)
    ensures r == t
  {
    SubIdentity(t, "```", true, 0);
    Sub(t, "```", "```", "```", true, 0)
  }

  function Bullets(t: string): (r: string)
    ensures |r| <= |t|
  {
    BulletSub(t, 0)
  }

  function InlineCode(t: string): (r: string)
    ensures r == t
  {
    SubIdentity(t, "`", false, 0);
    Sub(t, "`", "`", "`", false, 0)
  }

  /** `format_text_for_whatsapp(t)`: the formatted text is never longer than the input. */
  function FormatText(t: string): (r: string)
    ensures |r| <= |t|
  {
    InlineCode(Bullets(CodeBlocks(Strikethrough(ItalicUnderscores(ItalicStars(
      BoldUnderscores(BoldStars(t))))))))
  }

  // ---------------------------------------------------------------------------------------
  // Properties of one substitution

  /** A pass that writes each match back with its own delimiters changes nothing. */
  lemma {:induction false} SubIdentity(t: string, d: string, dotAll: bool, i: nat)
    requires |d| > 0 && i <= |t|
    ensures Sub(t, d, d, d, dotAll, i) == t[i..]
    decreases |t| - i
  {
    if i == |t| {
    } else if StartsAt(t, d, i) && CloseAt(t, d, dotAll, i + |d|).Some? {
      var k := CloseAt(t, d, dotAll, i + |d|).value;
      SubIdentity(t, d, dotAll, k + |d|);
      SubIdentityMatch(t, d, dotAll, i, k);
    } else {
      SubIdentity(t, d, dotAll, i + 1);
      SubIdentitySkip(t, d, dotAll, i);
    }
  }

  /** The step of `SubIdentity` at a match: `D x D` is written back as `D x D`. */
  lemma SubIdentityMatch(t: string, d: string, dotAll: bool, i: nat, k: nat)
    requires |d| > 0 && i < |t| && StartsAt(t, d, i) && CloseAt(t, d, dotAll, i + |d|) == Some(k)
    requires Sub(t, d, d, d, dotAll, k + |d|) == t[k + |d|..]
    ensures Sub(t, d, d, d, dotAll, i) == t[i..]
  {
    SubStepOnto(t, d, d, d, dotAll, i, t[k + |d|..]);
    SplitAtSpan(t, d, i, k);
  }

  /** The step of `SubIdentity` where no match starts: the character is copied. */
  lemma SubIdentitySkip(t: string, d: string, dotAll: bool, i: nat)
    requires |d| > 0 && i < |t| && !(StartsAt(t, d, i) && CloseAt(t, d, dotAll, i + |d|).Some?)
    requires Sub(t, d, d, d, dotAll, i + 1) == t[i + 1..]
    ensures Sub(t, d, d, d, dotAll, i) == t[i..]
  {
    SubSkipOnto(t, d, d, d, dotAll, i, t[i + 1..]);
    assert t[i..] == [t[i]] + t[i + 1..];
  }

  /** A pass whose delimiter occurs nowhere from `i` on changes nothing. */
  lemma {:induction false} SubNoDelimiter(t: string, d: string, l: string, r: string, dotAll: bool, i: nat)
    requires |d| > 0 && i <= |t|
    requires forall m :: i <= m < |t| ==> !StartsAt(t, d, m)
    ensures Sub(t, d, l, r, dotAll, i) == t[i..]
    ensures Matches(t, d, dotAll, i) == 0
    decreases |t| - i
  {
    if i < |t| {
      SubNoDelimiter(t, d, l, r, dotAll, i + 1);
      assert t[i..] == [t[i]] + t[i + 1..];
    }
  }

  /** A text without the first character of the delimiter is left unchanged. */
  lemma SubWithoutFirstChar(t: string, d: string, l: string, r: string, dotAll: bool)
    requires |d| > 0 && d[0] !in t
    ensures Sub(t, d, l, r, dotAll, 0) == t
  {
    forall m | 0 <= m < |t| ensures !StartsAt(t, d, m) {
      if m + |d| <= |t| {
        assert t[m..m + |d|][0] == t[m];
      }
    }
    SubNoDelimiter(t, d, l, r, dotAll, 0);
  }

  /** `n` copies of `c` added up; `ScaleProduct` shows it is `n * c`. */
  function Scale(n: nat, c: int): int
  {
    if n == 0 then 0 else c + Scale(n - 1, c)
  }

  /** `Scale` is multiplication. */
  lemma {:induction false} ScaleProduct(n: nat, c: int)
    ensures Scale(n, c) == n * c
  {
    if n > 0 {
      ScaleProduct(n - 1, c);
    }
  }

  /** Each replacement changes the length by `|l| + |r| - 2 * |d|`. */
  lemma {:induction false} SubLength(t: string, d: string, l: string, r: string, dotAll: bool, i: nat)
    requires |d| > 0 && i <= |t|
    ensures |Sub(t, d, l, r, dotAll, i)| == |t| - i + Scale(Matches(t, d, dotAll, i), |l| + |r| - 2 * |d|)
    decreases |t| - i
  {
    if i == |t| {
    } else if StartsAt(t, d, i) && CloseAt(t, d, dotAll, i + |d|).Some? {
      var k := CloseAt(t, d, dotAll, i + |d|).value;
      SubLength(t, d, l, r, dotAll, k + |d|);
      SubLengthMatch(t, d, l, r, dotAll, i, k);
    } else {
      SubLength(t, d, l, r, dotAll, i + 1);
      SubSkipOnto(t, d, l, r, dotAll, i, Sub(t, d, l, r, dotAll, i + 1));
    }
  }

  /** The step of `SubLength` at a match. */
  lemma SubLengthMatch(t: string, d: string, l: string, r: string, dotAll: bool, i: nat, k: nat)
    requires |d| > 0 && i < |t| && StartsAt(t, d, i) && CloseAt(t, d, dotAll, i + |d|) == Some(k)
    requires |Sub(t, d, l, r, dotAll, k + |d|)|
             == |t| - (k + |d|) + Scale(Matches(t, d, dotAll, k + |d|), |l| + |r| - 2 * |d|)
    ensures |Sub(t, d, l, r, dotAll, i)| == |t| - i + Scale(Matches(t, d, dotAll, i), |l| + |r| - 2 * |d|)
  {
    SubStepOnto(t, d, l, r, dotAll, i, Sub(t, d, l, r, dotAll, k + |d|));
    assert Matches(t, d, dotAll, i) == 1 + Matches(t, d, dotAll, k + |d|);
  }

  /** Proof step: one unfolding of `Sub` where a replacement is made, ahead of a rest of the
   *  scan already known to be `tail`. */
  lemma SubStepOnto(t: string, d: string, l: string, r: string, dotAll: bool, i: nat, tail: string)
    requires |d| > 0 && i < |t| && StartsAt(t, d, i) && CloseAt(t, d, dotAll, i + |d|).Some?
    requires Sub(t, d, l, r, dotAll, CloseAt(t, d, dotAll, i + |d|).value + |d|) == tail
    ensures Sub(t, d, l, r, dotAll, i) == l + t[i + |d|..CloseAt(t, d, dotAll, i + |d|).value] + r + tail
  {
  }

  /** Proof step: one unfolding of `Sub` where no replacement is made at `i`; the character is
   *  copied ahead of a rest already known to be `tail`. */
  lemma SubSkipOnto(t: string, d: string, l: string, r: string, dotAll: bool, i: nat, tail: string)
    requires |d| > 0 && i < |t| && !(StartsAt(t, d, i) && CloseAt(t, d, dotAll, i + |d|).Some?)
    requires Sub(t, d, l, r, dotAll, i + 1) == tail
    ensures Sub(t, d, l, r, dotAll, i) == [t[i]] + tail
  {
  }

  /** A span that starts and ends with the delimiter splits the text around it. */
  lemma SplitAtSpan(t: string, d: string, i: nat, k: nat)
    requires i + |d| <= k && StartsAt(t, d, i) && StartsAt(t, d, k)
    ensures t[i..] == d + t[i + |d|..k] + d + t[k + |d|..]
  {
    StartsAtSlice(t, d, i);
    StartsAtSlice(t, d, k);
    assert t[i..] == t[i..i + |d|] + t[i + |d|..k] + t[k..k + |d|] + t[k + |d|..];
  }

  /** A text that is exactly one delimited span `D x D`, with `x` free of newlines and of the
   *  delimiter's first character, becomes `L x R`. */
  lemma SubSpan(d: string, l: string, r: string, x: string)
    requires |d| > 0 && d[0] !in x && '\n' !in x
    ensures Sub(d + x + d, d, l, r, false, 0) == l + x + r
    ensures Matches(d + x + d, d, false, 0) == 1
  {
    var t := d + x + d;
    var k := |d| + |x|;
    assert StartsAt(t, d, 0) by { assert t[0..|d|] == d; StartsAtSlice(t, d, 0); }
    assert StartsAt(t, d, k) by { assert t[k..k + |d|] == d; StartsAtSlice(t, d, k); }
    forall m | |d| <= m < k ensures !StartsAt(t, d, m) {
      assert t[m] == x[m - |d|];
      if m + |d| <= |t| {
        assert t[m..m + |d|][0] == t[m];
      }
    }
    assert t[|d|..k] == x;
    CloseAtLeftmost(t, d, false, |d|);
    assert CloseAt(t, d, false, |d|) == Some(k);
    assert Sub(t, d, l, r, false, k + |d|) == [];
  }

  // ---------------------------------------------------------------------------------------
  // Properties of the bullet pass

  /** Where no bullet match starts, the bullet pass copies the text. */
  lemma {:induction false} BulletSubNoMatch(t: string, i: nat)
    requires i <= |t|
    requires forall m :: i <= m < |t| ==> BulletMatch(t, m).None?
    ensures BulletSub(t, i) == t[i..]
    decreases |t| - i
  {
    if i < |t| {
      BulletSubNoMatch(t, i + 1);
      assert t[i..] == [t[i]] + t[i + 1..];
    }
  }

  /** Without `*` and `-` the bullet pass has nothing to match. */
  lemma BulletsWithoutMarkers(t: string)
    requires '*' !in t && '-' !in t
    ensures Bullets(t) == t
  {
    BulletSubNoMatch(t, 0);
  }

  /** Past the first character of a line the bullet pass copies one character and goes on. */
  lemma BulletSubCopies(t: string, i: nat)
    requires 0 < i < |t| && t[i - 1] != '\n'
    ensures BulletSub(t, i) == [t[i]] + BulletSub(t, i + 1)
  {
  }

  /** Inside a line, past its first character, the bullet pass copies the text: `^` only
   *  matches at the start of a line. */
  lemma {:induction false} BulletSubInsideLine(t: string, i: nat, j: nat)
    requires 0 < i <= j <= |t|
    requires forall k :: i - 1 <= k < j - 1 ==> t[k] != '\n'
    ensures BulletSub(t, i) == t[i..j] + BulletSub(t, j)
    decreases j - i
  {
    if i < j {
      BulletSubCopies(t, i);
      BulletSubInsideLine(t, i + 1, j);
      var rest := BulletSub(t, j);
      assert [t[i]] + (t[i + 1..j] + rest) == [t[i]] + t[i + 1..j] + rest;
      assert [t[i]] + t[i + 1..j] == t[i..j];
    }
  }

  /** At a match the bullet pass writes `* ` and goes on after the match. */
  lemma BulletSubReplaces(t: string, i: nat, e: nat)
    requires i <= e <= |t| && BulletAt(t, i, e)
    ensures BulletSub(t, i) == "* " + BulletSub(t, e)
  {
    assert BulletMatch(t, i) == Some(e);
  }

  /** At the start of a line, optional whitespace (blank lines included), then `-` or `*`,
   *  then whitespace up to the next non-whitespace character, is a match of the bullet
   *  pattern whose trailing whitespace run is maximal. */
  lemma BulletAtLine(t: string, i: nat, w: string, m: char, s: string)
    requires LineStart(t, i) && i + |w| + 1 + |s| <= |t|
    requires t[i..i + |w| + 1 + |s|] == w + [m] + s
    requires AllSpace(w) && (m == '*' || m == '-') && |s| > 0 && AllSpace(s)
    requires i + |w| + 1 + |s| == |t| || !IsSpace(t[i + |w| + 1 + |s|])
    ensures BulletAt(t, i, i + |w| + 1 + |s|)
  {
    var e := i + |w| + 1 + |s|;
    assert SpaceRun(t, i, i + |w|) by {
      forall j | i <= j < i + |w| ensures IsSpace(t[j]) {
        assert t[j] == t[i..e][j - i] == w[j - i];
      }
    }
    assert SpaceRun(t, i + |w| + 1, e) by {
      forall j | i + |w| + 1 <= j < e ensures IsSpace(t[j]) {
        assert t[j] == t[i..e][j - i] == s[j - i - |w| - 1];
      }
    }
    assert t[i + |w|] == t[i..e][|w|] == m;
  }

  /** Such a match is replaced as a whole by `* `, and the scan goes on after it. */
  lemma BulletLine(t: string, i: nat, w: string, m: char, s: string)
    requires LineStart(t, i) && i + |w| + 1 + |s| <= |t|
    requires t[i..i + |w| + 1 + |s|] == w + [m] + s
    requires AllSpace(w) && (m == '*' || m == '-') && |s| > 0 && AllSpace(s)
    requires i + |w| + 1 + |s| == |t| || !IsSpace(t[i + |w| + 1 + |s|])
    ensures BulletSub(t, i) == "* " + BulletSub(t, i + |w| + 1 + |s|)
  {
    BulletAtLine(t, i, w, m, s);
    BulletSubReplaces(t, i, i + |w| + 1 + |s|);
  }

  /** A list item at the start of a line, `- ` then a text `x` that starts with a
   *  non-whitespace character, up to and including the end of its line, becomes `* x`. */
  lemma BulletItem(t: string, i: nat, j: nat, x: string)
    requires LineStart(t, i) && i + 2 < j <= |t| && t[i + 2..j] == x
    requires t[i] == '-' && t[i + 1] == ' ' && !IsSpace(t[i + 2])
    requires forall k :: i + 1 <= k < j - 1 ==> t[k] != '\n'
    ensures BulletSub(t, i) == "* " + (x + BulletSub(t, j))
  {
    assert t[i..i + 2] == [] + ['-'] + " ";
    BulletLine(t, i, [], '-', " ");
    BulletSubInsideLine(t, i + 2, j);
  }

  /** Each line of a list gets its own bullet. */
  lemma BulletsTwoItems(x: string, y: string)
    requires |x| > 0 && !IsSpace(x[0]) && '\n' !in x
    requires |y| > 0 && !IsSpace(y[0]) && '\n' !in y
    ensures Bullets("- " + x + "\n- " + y) == "* " + x + "\n* " + y
  {
    var t := "- " + x + "\n- " + y;
    TwoItemsShape(x, y, t);
    BulletItem(t, 0, |x| + 3, x + "\n");
    BulletItem(t, |x| + 3, |t|, y);
    var first, second, last := BulletSub(t, 0), BulletSub(t, |x| + 3), BulletSub(t, |t|);
    assert last == [];
    assert first == "* " + ((x + "\n") + ("* " + y));
  }

  /** Where the two items of `BulletsTwoItems` sit in the text. */
  lemma TwoItemsShape(x: string, y: string, t: string)
    requires |x| > 0 && !IsSpace(x[0]) && '\n' !in x
    requires |y| > 0 && !IsSpace(y[0]) && '\n' !in y
    requires t == "- " + x + "\n- " + y
    ensures |t| == |x| + |y| + 5
    ensures t[0] == '-' && t[1] == ' ' && !IsSpace(t[2]) && t[2..|x| + 3] == x + "\n"
    ensures forall k :: 1 <= k < |x| + 2 ==> t[k] != '\n'
    ensures t[|x| + 2] == '\n' && t[|x| + 3] == '-' && t[|x| + 4] == ' ' && !IsSpace(t[|x| + 5])
    ensures t[|x| + 5..|t|] == y
    ensures forall k :: |x| + 4 <= k < |t| - 1 ==> t[k] != '\n'
  {
    var n := |x|;
    assert t[2..n + 3] == x + "\n" && t[n + 5..|t|] == y;
    forall k | 1 <= k < n + 2 ensures t[k] != '\n' {
      if k >= 2 {
        assert t[k] == t[2..n + 3][k - 2];
      }
    }
    forall k | n + 4 <= k < |t| - 1 ensures t[k] != '\n' {
      if k >= n + 5 {
        assert t[k] == t[n + 5..|t|][k - n - 5];
      }
    }
  }

  /** A single line whose first character is neither whitespace nor a marker has no bullet. */
  lemma BulletsOneLine(t: string)
    requires '\n' !in t && (|t| > 0 ==> !IsSpace(t[0]) && t[0] != '*' && t[0] != '-')
    ensures Bullets(t) == t
  {
    forall j | 0 <= j < |t| ensures BulletMatch(t, j).None? {
      if j > 0 {
        assert t[j - 1] in t;
      }
    }
    BulletSubNoMatch(t, 0);
  }

  // ---------------------------------------------------------------------------------------
  // Properties of the whole chain

  /** Proof step: `FormatText` unfolded into its eight passes, each result named. */
  lemma FormatTextChain(t: string, a: string, b: string, c: string, e: string, f: string, g: string,
                        h: string, z: string)
    requires BoldStars(t) == a && BoldUnderscores(a) == b && ItalicStars(b) == c
    requires ItalicUnderscores(c) == e && Strikethrough(e) == f && CodeBlocks(f) == g
    requires Bullets(g) == h && InlineCode(h) == z
    ensures FormatText(t) == z
  {
  }

  /** Text with none of `*`, `_`, `~`, `-` comes back unchanged. */
  lemma FormatPlainText(t: string)
    requires '*' !in t && '_' !in t && '~' !in t && '-' !in t
    ensures FormatText(t) == t
  {
    SubWithoutFirstChar(t, "**", "*", "*", false);
    SubWithoutFirstChar(t, "__", "*", "*", false);
    SubWithoutFirstChar(t, "*", "_", "_", false);
    SubWithoutFirstChar(t, "~~", "~", "~", false);
    BulletsWithoutMarkers(t);
  }

  /** Inline code is left as it is. */
  lemma FormatInlineCode()
    ensures FormatText("`code`") == "`code`"
  {
    FormatPlainText("`code`");
  }

  /** The first pass alone turns `**x**` into `*x*`; the italic pass then rewrites that
   *  `*x*`, so the chain as a whole yields `_x_`. */
  lemma FormatDoubleStar(x: string)
    requires '*' !in x && '_' !in x && '~' !in x && '\n' !in x
    ensures BoldStars("**" + x + "**") == "*" + x + "*"
    ensures FormatText("**" + x + "**") == "_" + x + "_"
  {
    var t, t1, t3 := "**" + x + "**", "*" + x + "*", "_" + x + "_";
    assert BoldStars(t) == t1 by { SubSpan("**", "*", "*", x); }
    assert BoldUnderscores(t1) == t1 by { SubWithoutFirstChar(t1, "__", "*", "*", false); }
    assert ItalicStars(t1) == t3 by { SubSpan("*", "_", "_", x); }
    assert Strikethrough(t3) == t3 by { SubWithoutFirstChar(t3, "~~", "~", "~", false); }
    assert Bullets(t3) == t3 by { BulletsOneLine(t3); }
    FormatTextChain(t, t1, t1, t3, t3, t3, t3, t3, t3);
  }

  lemma FormatBoldExample(t: string)
    requires t == "**bold**"
    ensures FormatText(t) == "_bold_"
  {
    assert t == "**" + "bold" + "**";
    assert "_" + "bold" + "_" == "_bold_";
    FormatDoubleStar("bold");
  }

  /** `~~x~~` becomes `~x~` when `x` has neither `~` nor a newline. */
  lemma StrikethroughSpan(x: string)
    requires '~' !in x && '\n' !in x
    ensures Strikethrough("~~" + x + "~~") == "~" + x + "~"
  {
    SubSpan("~~", "~", "~", x);
  }

  /** Blank lines just before a bullet are absorbed by the leading `\s*`. */
  lemma BulletAbsorbsBlankLines(x: string)
    requires |x| > 0 && !IsSpace(x[0]) && '\n' !in x
    ensures Bullets("\n\n- " + x) == "* " + x
  {
    var t := "\n\n- " + x;
    BlankLinesShape(x, t);
    BulletLine(t, 0, "\n\n", '-', " ");
    BulletSubInsideLine(t, 4, |t|);
    assert BulletSub(t, |t|) == [];
  }

  /** Where the marker and the item of `BulletAbsorbsBlankLines` sit in the text. */
  lemma BlankLinesShape(x: string, t: string)
    requires |x| > 0 && !IsSpace(x[0]) && '\n' !in x
    requires t == "\n\n- " + x
    ensures |t| == |x| + 4 && AllSpace("\n\n")
    ensures t[0..4] == "\n\n" + ['-'] + " " && !IsSpace(t[4]) && t[4..|t|] == x
    ensures forall k :: 3 <= k < |t| - 1 ==> t[k] != '\n'
  {
    assert t[4..|t|] == x;
    forall k | 3 <= k < |t| - 1 ensures t[k] != '\n' {
      if k >= 4 {
        assert t[k] == t[4..|t|][k - 4];
      }
    }
  }
}
