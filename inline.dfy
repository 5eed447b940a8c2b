/** The blog's inline formatter: six global, leftmost, non-greedy regex
    substitutions applied in a fixed order (bold `**`, bold `__`, italic `*`,
    italic `_`, code span, link). Each substitution is a left-to-right scan:
    where the opening delimiter stands and a shortest non-empty span of
    non-line-terminator characters is followed by the closing delimiter, the
    match is replaced and the scan resumes after it; otherwise the scan moves
    on by one character. No HTML escaping is performed. */
module Inline {

  import opened Wrappers

  /** Characters the regex `.` matches: everything but the line terminators. */
  predicate IsDot(c: char) {
    c != '\n' && c != '\r' && c != '\U{2028}' && c != '\U{2029}'
  }

  predicate AllDot(s: string) {
    forall i :: 0 <= i < |s| ==> IsDot(s[i])
  }

  /** `d` occurs in `t` at position `j`. */
  predicate At(t: string, j: nat, d: string) {
    j <= |t| && d <= t[j..]
  }

  /** Search for `(.+?)d` from candidate end `k` on: the first position from `k` where `d`
      stands, as long as the characters passed over are not line terminators. */
  function CloseFrom(t: string, d: string, k: nat): (r: Option<nat>)
    requires k <= |t|
    decreases |t| - k
    ensures r.Some? ==> k <= r.value && r.value + |d| <= |t|
  {
    if At(t, k, d) then Some(k)
    else if k < |t| && IsDot(t[k]) then CloseFrom(t, d, k + 1)
    else None
  }

  /** The non-greedy group `(.+?)` followed by `d`, matched at the start of `t`: the
      length of the shortest non-empty all-dot span that `d` follows, if any. */
  function ShortestClose(t: string, d: string): (r: Option<nat>)
    ensures r.Some? ==> 1 <= r.value && r.value + |d| <= |t|
  {
    if |t| > 0 && IsDot(t[0]) then CloseFrom(t, d, 1) else None
  }

  /** `CloseFrom` finds the leftmost end from `k` on, or shows there is none. */
  lemma {:induction false} CloseFromSpec(t: string, d: string, k: nat)
    requires 1 <= k <= |t| && AllDot(t[..k])
    ensures var r := CloseFrom(t, d, k);
            && (r.Some? ==> AllDot(t[..r.value]) && At(t, r.value, d)
                            && forall j :: k <= j < r.value ==> !At(t, j, d))
            && (r.None? ==> forall j :: k <= j <= |t| && AllDot(t[..j]) ==> !At(t, j, d))
    decreases |t| - k
  {
    if At(t, k, d) {
    } else if k < |t| && IsDot(t[k]) {
      assert t[..k + 1] == t[..k] + [t[k]];
      CloseFromSpec(t, d, k + 1);
    } else {
      assert forall j :: k < j <= |t| ==> t[..j][k] == t[k];
    }
  }

  /** Leftmost-shortest semantics of `(.+?)d`: on a match, the span is all dots, `d` follows
      it and no shorter non-empty span is followed by `d`; with no match, no non-empty
      all-dot span is followed by `d`. */
  lemma ShortestCloseSpec(t: string, d: string)
    ensures var r := ShortestClose(t, d);
            && (r.Some? ==> AllDot(t[..r.value]) && At(t, r.value, d)
                            && forall j :: 1 <= j < r.value ==> !At(t, j, d))
            && (r.None? ==> forall j :: 1 <= j <= |t| && AllDot(t[..j]) ==> !At(t, j, d))
  {
    if |t| > 0 && IsDot(t[0]) {
      CloseFromSpec(t, d, 1);
    } else {
      assert forall j :: 1 <= j <= |t| ==> t[..j][0] == t[0];
    }
  }

  /** One global substitution `d(.+?)d` -> `open$1close` (BlogDetail.jsx lines 45-53). */
  function ReplacePairs(s: string, d: string, open: string, close: string): (r: string)
    decreases |s|
  {
    if s == [] then []
    else if d <= s && ShortestClose(s[|d|..], d).Some? then
      var k := ShortestClose(s[|d|..], d).value;
      open + s[|d|..|d| + k] + close + ReplacePairs(s[|d| + k + |d|..], d, open, close)
    else [s[0]] + ReplacePairs(s[1..], d, open, close)
  }

  /** Text without the delimiter's first character passes a substitution unchanged. */
  lemma {:induction false} ReplacePairsPlain(s: string, d: string, open: string, close: string)
    requires d != [] && d[0] !in s
    ensures ReplacePairs(s, d, open, close) == s
  {
    if s != [] {
      assert !(d <= s) by { assert s[0] != d[0]; }
      ReplacePairsPlain(s[1..], d, open, close);
      assert [s[0]] + s[1..] == s;
    }
  }

  lemma ReplacePairsStep(s: string, d: string, open: string, close: string)
    requires d != [] && s != [] && s[0] != d[0]
    ensures ReplacePairs(s, d, open, close) == [s[0]] + ReplacePairs(s[1..], d, open, close)
  {
    assert !(d <= s);
  }

  /** A stretch free of the delimiter's first character is copied and the scan continues after it. */
  lemma {:induction false} ReplacePairsSkip(p: string, q: string, d: string, open: string, close: string)
    requires d != [] && d[0] !in p
    ensures ReplacePairs(p + q, d, open, close) == p + ReplacePairs(q, d, open, close)
  {
    if p != [] {
      var s := p + q;
      assert s[0] == p[0] && s[1..] == p[1..] + q;
      ReplacePairsStep(s, d, open, close);
      ReplacePairsSkip(p[1..], q, d, open, close);
      var rest := ReplacePairs(q, d, open, close);
      assert [p[0]] + (p[1..] + rest) == p + rest;
    } else {
      assert p + q == q;
    }
  }

  /** `d x d q` with `x` a non-empty line-terminator-free span free of `d[0]`:
      the shortest match is exactly `d x d`, it becomes `open x close`, and the
      scan resumes on `q`. */
  lemma MatchAtFront(x: string, q: string, d: string, open: string, close: string)
    requires d != [] && x != [] && AllDot(x) && d[0] !in x
    ensures ReplacePairs(d + x + d + q, d, open, close)
            == open + x + close + ReplacePairs(q, d, open, close)
  {
    var s := d + x + d + q;
    CloseInPieces(d, x, q);
    ReplacePairsAt(s, d, open, close);
  }

  /** In `d x d q`, the shortest close after the opening delimiter is right after `x`. */
  lemma CloseInPieces(d: string, x: string, q: string)
    requires d != [] && x != [] && AllDot(x) && d[0] !in x
    ensures var s := d + x + d + q;
            && d <= s && ShortestClose(s[|d|..], d) == Some(|x|)
            && |d| + |x| + |d| <= |s| && s[|d|..|d| + |x|] == x && s[|d| + |x| + |d|..] == q
  {
    Pieces(d, x, q);
    CloseAfterSpan(x, d + q, d);
  }

  lemma Pieces(d: string, x: string, q: string)
    ensures var s := d + x + d + q;
            && d <= s && s[|d|..] == x + (d + q)
            && s[|d|..|d| + |x|] == x && s[|d| + |x| + |d|..] == q
  {
    var s := d + x + d + q;
    assert s[..|d|] == d;
  }

  /** Where the delimiter stands and the shortest close is found `k` characters later,
      the match is replaced and the scan resumes after the closing delimiter. */
  lemma {:induction false} ReplacePairsAt(s: string, d: string, open: string, close: string)
    requires s != [] && d <= s && ShortestClose(s[|d|..], d).Some?
    ensures var k := ShortestClose(s[|d|..], d).value;
            ReplacePairs(s, d, open, close)
            == open + s[|d|..|d| + k] + close + ReplacePairs(s[|d| + k + |d|..], d, open, close)
  {
  }

  /** The shortest close after a span free of `d[0]` is right after the span. */
  lemma CloseAfterSpan(x: string, rest: string, d: string)
    requires d != [] && x != [] && AllDot(x) && d[0] !in x && d <= rest
    ensures ShortestClose(x + rest, d) == Some(|x|)
  {
    var t := x + rest;
    assert t[..|x|] == x;
    assert t[|x|..] == rest;
    assert At(t, |x|, d);
    forall j | 1 <= j < |x| ensures !At(t, j, d) {
      assert t[j] == x[j];
    }
    ShortestCloseSpec(t, d);
  }

  /** The link pattern `\[(.+?)\]\((.+?)\)` after its `[`: try labels `t[..j]` from the
      shortest on; the first label for which `](url)` can complete is taken, with its
      shortest url. Returns the label length and the url length. */
  function LinkFrom(t: string, j: nat): (r: Option<(nat, nat)>)
    requires j <= |t|
    decreases |t| - j
    ensures r.Some? ==> j <= r.value.0 && r.value.0 + 2 + r.value.1 < |t|
  {
    if LinkEndsAt(t, j) then Some((j, ShortestClose(t[j + 2..], ")").value))
    else if j < |t| && IsDot(t[j]) then LinkFrom(t, j + 1)
    else None
  }

  /** A found link: its all-dot label is the shortest one that `](url)` can complete. */
  lemma {:induction false} LinkFromFound(t: string, j: nat)
    requires 1 <= j <= |t| && AllDot(t[..j]) && LinkFrom(t, j).Some?
    ensures var l := LinkFrom(t, j).value.0;
            AllDot(t[..l]) && LinkEndsAt(t, l) && forall m :: j <= m < l ==> !LinkEndsAt(t, m)
    decreases |t| - j
  {
    if !LinkEndsAt(t, j) {
      assert t[..j + 1] == t[..j] + [t[j]];
      LinkFromFound(t, j + 1);
    }
  }

  /** No link found: no all-dot label from `j` on can be completed. */
  lemma {:induction false} LinkFromMissing(t: string, j: nat)
    requires 1 <= j <= |t| && AllDot(t[..j]) && LinkFrom(t, j).None?
    ensures forall m :: j <= m <= |t| && AllDot(t[..m]) ==> !LinkEndsAt(t, m)
    decreases |t| - j
  {
    if j < |t| && IsDot(t[j]) {
      assert t[..j + 1] == t[..j] + [t[j]];
      LinkFromMissing(t, j + 1);
    } else {
      assert forall m :: j < m <= |t| ==> t[..m][j] == t[j];
    }
  }

  /** `LinkFrom` takes the shortest label that `](url)` can complete, with its shortest
      url; with no result, no all-dot label from `j` on can be completed. */
  lemma LinkFromSpec(t: string, j: nat)
    requires 1 <= j <= |t| && AllDot(t[..j])
    ensures var r := LinkFrom(t, j);
            && (r.Some? ==> var (l, u) := r.value;
                            AllDot(t[..l]) && t[l..l + 2] == "]("
                            && ShortestClose(t[l + 2..], ")") == Some(u)
                            && forall m :: j <= m < l ==> !LinkEndsAt(t, m))
            && (r.None? ==> forall m :: j <= m <= |t| && AllDot(t[..m]) ==> !LinkEndsAt(t, m))
  {
    if LinkFrom(t, j).Some? {
      LinkFromFound(t, j);
      LinkFromHit(t, j);
    } else {
      LinkFromMissing(t, j);
    }
  }

  /** The url of a found link is the shortest one closing after its label. */
  lemma {:induction false} LinkFromHit(t: string, j: nat)
    requires j <= |t| && LinkFrom(t, j).Some?
    ensures var (l, u) := LinkFrom(t, j).value;
            LinkEndsAt(t, l) && ShortestClose(t[l + 2..], ")") == Some(u)
    decreases |t| - j
  {
    if !LinkEndsAt(t, j) {
      LinkFromHit(t, j + 1);
    }
  }

  /** A label ending at `m` can be completed by `](url)`. */
  predicate LinkEndsAt(t: string, m: nat) {
    m + 2 <= |t| && t[m..m + 2] == "](" && ShortestClose(t[m + 2..], ")").Some?
  }

  function Anchor(caption: string, url: string): string {
    "<a href=\"" + url + "\" target=\"_blank\" rel=\"noopener noreferrer\">" + caption + "</a>"
  }

  /** The global link substitution (BlogDetail.jsx line 56). */
  function ReplaceLinks(s: string): (r: string)
    decreases |s|
  {
    if s == [] then []
    else if s[0] == '[' && |s| > 1 && IsDot(s[1]) && LinkFrom(s[1..], 1).Some? then
      var l, u := LinkFrom(s[1..], 1).value.0, LinkFrom(s[1..], 1).value.1;
      Anchor(s[1..1 + l], s[1 + l + 2..1 + l + 2 + u]) + ReplaceLinks(s[1 + l + 2 + u + 1..])
    else [s[0]] + ReplaceLinks(s[1..])
  }

  lemma {:induction false} ReplaceLinksPlain(s: string)
    requires '[' !in s
    ensures ReplaceLinks(s) == s
  {
    if s != [] {
      ReplaceLinksPlain(s[1..]);
      assert [s[0]] + s[1..] == s;
    }
  }

  /** `processInlineMarkdown`: the six substitutions in source order (lines 45-56):
      strong `**` and `__`, emphasis `*` and `_`, code spans, then links, each applied to
      the previous one's output. */
  function Format(text: string): string {
    var bold := ReplacePairs(ReplacePairs(text, "**", "<strong>", "</strong>"), "__", "<strong>", "</strong>");
    var italic := ReplacePairs(ReplacePairs(bold, "*", "<em>", "</em>"), "_", "<em>", "</em>");
    ReplaceLinks(ReplacePairs(italic, "`", "<code>", "</code>"))
  }

  /** Text holding none of `*`, `_`, a backtick or `[` is returned unchanged. */
  lemma FormatPlain(text: string)
    requires '*' !in text && '_' !in text && '`' !in text && '[' !in text
    ensures Format(text) == text
  {
    ReplacePairsPlain(text, "**", "<strong>", "</strong>");
    ReplacePairsPlain(text, "__", "<strong>", "</strong>");
    ReplacePairsPlain(text, "*", "<em>", "</em>");
    ReplacePairsPlain(text, "_", "<em>", "</em>");
    ReplacePairsPlain(text, "`", "<code>", "</code>");
    ReplaceLinksPlain(text);
  }

  // ---------------------------------------------------------------------------
  // Worked inputs
  // ---------------------------------------------------------------------------

  /** Text in which the delimiter `d` occurs nowhere passes that substitution unchanged. */
  lemma {:induction false} ReplacePairsAbsent(s: string, d: string, open: string, close: string)
    requires d != [] && forall j :: 0 <= j <= |s| ==> !At(s, j, d)
    ensures ReplacePairs(s, d, open, close) == s
    decreases |s|
  {
    if s != [] {
      assert !At(s, 0, d) && s[0..] == s;
      forall j | 0 <= j <= |s| - 1 ensures !At(s[1..], j, d) {
        assert !At(s, j + 1, d);
        assert s[1..][j..] == s[j + 1..];
      }
      ReplacePairsAbsent(s[1..], d, open, close);
      assert [s[0]] + s[1..] == s;
    }
  }

  /** Where the delimiter's first character stands but the whole delimiter does not, the
      scan copies that character and moves on. */
  lemma {:induction false} ReplacePairsNoOpen(s: string, d: string, open: string, close: string)
    requires s != [] && !(d <= s)
    ensures ReplacePairs(s, d, open, close) == [s[0]] + ReplacePairs(s[1..], d, open, close)
  {
  }

  /** Ordinary text: no line terminator and none of the characters the formatter reacts to. */
  predicate Plain(s: string) {
    AllDot(s) && '*' !in s && '_' !in s && '`' !in s && '[' !in s
  }

  /** One delimited span `p d x d q`, with the delimiter's first character nowhere else:
      it becomes `p open x close q`. */
  lemma {:induction false} PairPass(p: string, x: string, q: string, d: string, open: string, close: string)
    requires d != [] && x != [] && AllDot(x) && d[0] !in p && d[0] !in x && d[0] !in q
    ensures ReplacePairs(p + d + x + d + q, d, open, close) == p + open + x + close + q
  {
    var m := d + x + d + q;
    assert p + d + x + d + q == p + m;
    ReplacePairsSkip(p, m, d, open, close);
    MatchAtFront(x, q, d, open, close);
    ReplacePairsPlain(q, d, open, close);
  }

  /** `p_x_q` with no other underscore holds no `__`, so the `__` pass leaves it alone. */
  lemma {:induction false} NoDoubleUnderscore(p: string, x: string, q: string)
    requires x != [] && '_' !in p && '_' !in x && '_' !in q
    ensures ReplacePairs(p + "_" + x + "_" + q, "__", "<strong>", "</strong>") == p + "_" + x + "_" + q
  {
    var n := "_" + q;
    var m := "_" + (x + n);
    assert p + "_" + x + "_" + q == p + m;
    assert ReplacePairs(p + m, "__", "<strong>", "</strong>") == p + ReplacePairs(m, "__", "<strong>", "</strong>") by {
      ReplacePairsSkip(p, m, "__", "<strong>", "</strong>");
    }
    assert ReplacePairs(m, "__", "<strong>", "</strong>") == "_" + (x + ReplacePairs(n, "__", "<strong>", "</strong>")) by {
      LoneUnderscore(x + n);
      ReplacePairsSkip(x, n, "__", "<strong>", "</strong>");
    }
    assert ReplacePairs(n, "__", "<strong>", "</strong>") == n by {
      if q != [] { LoneUnderscore(q); } else { assert n == "_"; }
      ReplacePairsPlain(q, "__", "<strong>", "</strong>");
    }
  }

  /** A single underscore before text not starting with one is copied by the `__` pass. */
  lemma {:induction false} LoneUnderscore(t: string)
    requires t != [] && t[0] != '_'
    ensures ReplacePairs("_" + t, "__", "<strong>", "</strong>") == "_" + ReplacePairs(t, "__", "<strong>", "</strong>")
  {
    var m := "_" + t;
    assert m[1] == t[0] && m[1..] == t;
    ReplacePairsNoOpen(m, "__", "<strong>", "</strong>");
  }

  /** The three passes that touch the double asterisks of `a**b**c_d_e`. */
  lemma {:induction false} BoldPasses(a: string, b: string, c: string, d: string, e: string)
    requires Plain(a) && Plain(b) && Plain(c) && Plain(d) && Plain(e) && b != [] && d != []
    ensures var s1 := a + "<strong>" + b + "</strong>" + c + "_" + d + "_" + e;
            && ReplacePairs(a + "**" + b + "**" + c + "_" + d + "_" + e, "**", "<strong>", "</strong>") == s1
            && ReplacePairs(s1, "__", "<strong>", "</strong>") == s1
            && ReplacePairs(s1, "*", "<em>", "</em>") == s1
  {
    var p := a + "<strong>" + b + "</strong>" + c;
    var s1 := p + "_" + d + "_" + e;
    var tail := c + "_" + d + "_" + e;
    assert a + "**" + b + "**" + c + "_" + d + "_" + e == a + "**" + b + "**" + tail;
    PairPass(a, b, tail, "**", "<strong>", "</strong>");
    assert a + "<strong>" + b + "</strong>" + tail == s1;
    assert '_' !in "<strong>" && '_' !in "</strong>" && '*' !in "<strong>" && '*' !in "</strong>";
    NoDoubleUnderscore(p, d, e);
    ReplacePairsPlain(s1, "*", "<em>", "</em>");
  }

  /** The three passes after them: the underscores become emphasis, and the code and link
      passes find nothing. */
  lemma {:induction false} ItalicPasses(p: string, d: string, e: string)
    requires '_' !in p && '`' !in p && '[' !in p && Plain(d) && Plain(e) && d != []
    ensures var s4 := p + "<em>" + d + "</em>" + e;
            && ReplacePairs(p + "_" + d + "_" + e, "_", "<em>", "</em>") == s4
            && ReplacePairs(s4, "`", "<code>", "</code>") == s4
            && ReplaceLinks(s4) == s4
  {
    PairPass(p, d, e, "_", "<em>", "</em>");
    var s4 := p + "<em>" + d + "</em>" + e;
    assert '`' !in "<em>" && '`' !in "</em>" && '[' !in "<em>" && '[' !in "</em>";
    ReplacePairsPlain(s4, "`", "<code>", "</code>");
    ReplaceLinksPlain(s4);
  }

  /** `a**b**c_d_e`, with plain pieces and non-empty `b` and `d`: the double asterisks
      make strong emphasis, the underscores emphasis, and nothing else changes. */
  lemma {:induction false} FormatBoldItalic(a: string, b: string, c: string, d: string, e: string)
    requires Plain(a) && Plain(b) && Plain(c) && Plain(d) && Plain(e) && b != [] && d != []
    ensures Format(a + "**" + b + "**" + c + "_" + d + "_" + e)
            == a + "<strong>" + b + "</strong>" + c + "<em>" + d + "</em>" + e
  {
    var s := a + "**" + b + "**" + c + "_" + d + "_" + e;
    var p := a + "<strong>" + b + "</strong>" + c;
    var s1 := p + "_" + d + "_" + e;
    var s4 := p + "<em>" + d + "</em>" + e;
    BoldPasses(a, b, c, d, e);
    assert '`' !in "<strong>" && '`' !in "</strong>" && '[' !in "<strong>" && '[' !in "</strong>";
    ItalicPasses(p, d, e);
  }

  /** A stretch without `[` is copied by the link substitution, which continues after it. */
  lemma {:induction false} ReplaceLinksSkip(p: string, q: string)
    requires '[' !in p
    ensures ReplaceLinks(p + q) == p + ReplaceLinks(q)
    decreases |p|
  {
    if p != [] {
      assert (p + q)[0] == p[0] && (p + q)[1..] == p[1..] + q;
      ReplaceLinksSkip(p[1..], q);
      assert [p[0]] + (p[1..] + ReplaceLinks(q)) == p + ReplaceLinks(q);
    } else {
      assert p + q == q;
    }
  }

  /** In `caption](url)rest` with `]` absent from the caption, the label search from `j` on
      stops right after the caption. */
  lemma {:induction false} LinkFromLabel(caption: string, url: string, rest: string, j: nat)
    requires 1 <= j <= |caption| && AllDot(caption) && ']' !in caption
    requires url != [] && AllDot(url) && ')' !in url
    ensures LinkFrom(caption + "](" + url + ")" + rest, j) == Some((|caption|, |url|))
    decreases |caption| - j
  {
    var t := caption + "](" + url + ")" + rest;
    if j < |caption| {
      assert t[j] == caption[j];
      assert !LinkEndsAt(t, j);
      LinkFromLabel(caption, url, rest, j + 1);
    } else {
      assert t[j..j + 2] == "](";
      assert t[j + 2..] == url + (")" + rest);
      CloseAfterSpan(url, ")" + rest, ")");
    }
  }

  /** `pre[caption](url)post`, with plain text around it, a plain caption without `]` and a
      url free of the formatter's characters and of `)`: the link becomes an anchor
      opened in a new browsing context, and nothing else changes. */
  lemma {:induction false} FormatLink(pre: string, caption: string, url: string, post: string)
    requires Plain(pre) && Plain(post) && Plain(caption) && Plain(url)
    requires caption != [] && ']' !in caption && url != [] && ')' !in url
    ensures Format(pre + "[" + caption + "](" + url + ")" + post) == pre + Anchor(caption, url) + post
  {
    var link := "[" + caption + "](" + url + ")" + post;
    var s := pre + link;
    assert pre + "[" + caption + "](" + url + ")" + post == s;
    assert '*' !in s && '_' !in s && '`' !in s;
    ReplacePairsPlain(s, "**", "<strong>", "</strong>");
    ReplacePairsPlain(s, "__", "<strong>", "</strong>");
    ReplacePairsPlain(s, "*", "<em>", "</em>");
    ReplacePairsPlain(s, "_", "<em>", "</em>");
    ReplacePairsPlain(s, "`", "<code>", "</code>");
    ReplaceLinksSkip(pre, link);
    LinkAtFront(caption, url, post);
  }

  /** Where the link pattern matches at the front, the match becomes an anchor and the
      scan resumes after the closing parenthesis. */
  lemma {:induction false} ReplaceLinksMatch(s: string)
    requires |s| > 1 && s[0] == '[' && IsDot(s[1]) && LinkFrom(s[1..], 1).Some?
    ensures var l, u := LinkFrom(s[1..], 1).value.0, LinkFrom(s[1..], 1).value.1;
            ReplaceLinks(s) == Anchor(s[1..1 + l], s[1 + l + 2..1 + l + 2 + u]) + ReplaceLinks(s[1 + l + 2 + u + 1..])
  {
  }

  /** A link at the front of the text becomes an anchor, and the scan resumes after it. */
  lemma {:induction false} LinkAtFront(caption: string, url: string, post: string)
    requires caption != [] && AllDot(caption) && ']' !in caption
    requires url != [] && AllDot(url) && ')' !in url && '[' !in post
    ensures ReplaceLinks("[" + caption + "](" + url + ")" + post) == Anchor(caption, url) + post
  {
    LinkAfterBracket(caption, url, post);
    LinkPieces(caption, url, post);
    LinkThenPlain("[" + caption + "](" + url + ")" + post, caption, url, post);
  }

  /** Where the scan finds a link whose pieces are `caption`, `url` and the rest `post`,
      and `post` holds no further `[`, the result is the anchor followed by `post`. */
  lemma {:induction false} LinkThenPlain(link: string, caption: string, url: string, post: string)
    requires |link| > 1 && link[0] == '[' && IsDot(link[1])
    requires LinkFrom(link[1..], 1) == Some((|caption|, |url|))
    requires 1 + |caption| + 2 + |url| + 1 <= |link|
    requires link[1..1 + |caption|] == caption
    requires link[1 + |caption| + 2..1 + |caption| + 2 + |url|] == url
    requires link[1 + |caption| + 2 + |url| + 1..] == post && '[' !in post
    ensures ReplaceLinks(link) == Anchor(caption, url) + post
  {
    ReplaceLinksMatch(link);
    ReplaceLinksPlain(post);
  }

  /** The slices of a link that the scan takes apart are its caption, url and rest. */
  lemma LinkPieces(caption: string, url: string, post: string)
    ensures var link := "[" + caption + "](" + url + ")" + post;
            var l, u := |caption|, |url|;
            1 + l + 2 + u + 1 <= |link|
            && link[1..1 + l] == caption
            && link[1 + l + 2..1 + l + 2 + u] == url
            && link[1 + l + 2 + u + 1..] == post
  {
    var link := "[" + caption + "](" + url + ")" + post;
    var l, u := |caption|, |url|;
    assert link[1..1 + l] == caption;
    assert link[1 + l + 2..1 + l + 2 + u] == url;
  }

  /** After the `[` of a link at the front, the label and the url are found whole. */
  lemma {:induction false} LinkAfterBracket(caption: string, url: string, post: string)
    requires caption != [] && AllDot(caption) && ']' !in caption
    requires url != [] && AllDot(url) && ')' !in url
    ensures var link := "[" + caption + "](" + url + ")" + post;
            |link| > 1 && link[0] == '[' && IsDot(link[1])
            && LinkFrom(link[1..], 1) == Some((|caption|, |url|))
  {
    var link := "[" + caption + "](" + url + ")" + post;
    assert link[1..] == caption + "](" + url + ")" + post;
    assert link[1] == caption[0];
    LinkFromLabel(caption, url, post, 1);
  }

  /** A non-empty all-dot span that `d` follows, with no earlier such span, is the
      shortest match. */
  lemma {:induction false} ShortestCloseOf(t: string, d: string, m: nat)
    requires 1 <= m && m + |d| <= |t| && AllDot(t[..m]) && At(t, m, d)
    requires forall j :: 1 <= j < m ==> !At(t, j, d)
    ensures ShortestClose(t, d) == Some(m)
  {
    ShortestCloseSpec(t, d);
  }

  /** The open case of inline precedence, `**a *b* c***` with plain non-empty words: the
      non-greedy strong emphasis closes at the first `**` it meets, which is inside the
      closing `***`; the single asterisks around `b` then make emphasis inside it, and the
      last asterisk is left over as text: `<strong>a <em>b</em> c</strong>*`. */
  lemma {:induction false} FormatNestedEmphasis(a: string, b: string, c: string)
    requires Plain(a) && Plain(b) && Plain(c) && a != [] && b != [] && c != []
    ensures Format("**" + a + " *" + b + "* " + c + "***")
            == ("<strong>" + a + " ") + "<em>" + b + "</em>" + (" " + c + "</strong>") + "*"
  {
    var p, q := "<strong>" + a + " ", " " + c + "</strong>";
    NestedStrongPasses(a, b, c);
    assert '*' !in p && '_' !in p && '`' !in p && '[' !in p by {
      assert '*' !in "<strong>" && '_' !in "<strong>" && '`' !in "<strong>" && '[' !in "<strong>";
    }
    assert '*' !in q && '_' !in q && '`' !in q && '[' !in q by {
      assert '*' !in "</strong>" && '_' !in "</strong>" && '`' !in "</strong>" && '[' !in "</strong>";
    }
    NestedEmphasisPasses(p, b, q);
  }

  /** The two strong passes on `**a *b* c***`. */
  lemma {:induction false} NestedStrongPasses(a: string, b: string, c: string)
    requires Plain(a) && Plain(b) && Plain(c) && a != [] && b != [] && c != []
    ensures var s1 := ("<strong>" + a + " ") + "*" + b + "*" + (" " + c + "</strong>") + "*";
            && ReplacePairs("**" + a + " *" + b + "* " + c + "***", "**", "<strong>", "</strong>") == s1
            && ReplacePairs(s1, "__", "<strong>", "</strong>") == s1
  {
    var x := a + " *" + b + "* " + c;
    var s1 := ("<strong>" + a + " ") + "*" + b + "*" + (" " + c + "</strong>") + "*";
    StrongPass(a, b, c);
    assert "<strong>" + x + "</strong>*" == s1;
    assert '_' !in "<strong>" && '_' !in "</strong>" && '_' !in s1;
    ReplacePairsPlain(s1, "__", "<strong>", "</strong>");
  }

  /** The four passes after them, on `p*b*q*` with `p = <strong>a ` and `q = " c</strong>"`:
      emphasis inside the strong text, then nothing. */
  lemma {:induction false} NestedEmphasisPasses(p: string, b: string, q: string)
    requires Plain(b) && '*' !in p && '_' !in p && '`' !in p && '[' !in p
    requires '*' !in q && '_' !in q && '`' !in q && '[' !in q && b != []
    ensures var s3 := p + "<em>" + b + "</em>" + q + "*";
            && ReplacePairs(p + "*" + b + "*" + q + "*", "*", "<em>", "</em>") == s3
            && ReplacePairs(s3, "_", "<em>", "</em>") == s3
            && ReplacePairs(s3, "`", "<code>", "</code>") == s3
            && ReplaceLinks(s3) == s3
  {
    var s3 := p + "<em>" + b + "</em>" + q + "*";
    EmphasisPass(p, b, q);
    assert '_' !in "<em>" && '_' !in "</em>" && '`' !in "<em>" && '`' !in "</em>" && '[' !in "<em>" && '[' !in "</em>";
    assert '_' !in s3 && '`' !in s3 && '[' !in s3;
    ReplacePairsPlain(s3, "_", "<em>", "</em>");
    ReplacePairsPlain(s3, "`", "<code>", "</code>");
    ReplaceLinksPlain(s3);
  }

  /** The strong pass on `**a *b* c***`: it closes at the first two asterisks of `***`. */
  lemma {:induction false} StrongPass(a: string, b: string, c: string)
    requires Plain(a) && Plain(b) && Plain(c) && a != [] && b != [] && c != []
    ensures var x := a + " *" + b + "* " + c;
            ReplacePairs("**" + a + " *" + b + "* " + c + "***", "**", "<strong>", "</strong>")
            == "<strong>" + x + "</strong>*"
  {
    var x := a + " *" + b + "* " + c;
    var s := "**" + x + "***";
    assert "**" + a + " *" + b + "* " + c + "***" == s;
    StrongCloses(a, b, c);
    assert s[2..2 + |x|] == x && s[2 + |x| + 2..] == "*";
    ReplacePairsAt(s, "**", "<strong>", "</strong>");
    ReplacePairsNoOpen("*", "**", "<strong>", "</strong>");
  }

  /** In `a *b* c***` the first `**` after a non-empty span is the one in `***`. */
  lemma {:induction false} StrongCloses(a: string, b: string, c: string)
    requires Plain(a) && Plain(b) && Plain(c) && a != [] && b != [] && c != []
    ensures var x := a + " *" + b + "* " + c;
            ShortestClose(("**" + x + "***")[2..], "**") == Some(|x|)
  {
    var x := a + " *" + b + "* " + c;
    var t := x + "***";
    assert ("**" + x + "***")[2..] == t;
    var n := |a| + 2 + |b|;
    forall j | 1 <= j < |x| ensures !At(t, j, "**") {
      if j < |a| {
        assert t[j] == a[j];
      } else if j == |a| {
        assert t[j] == ' ';
      } else if j == |a| + 1 {
        assert t[j + 1] == b[0];
      } else if j < n {
        assert t[j] == b[j - |a| - 2];
      } else if j == n {
        assert t[j + 1] == ' ';
      } else if j == n + 1 {
        assert t[j] == ' ';
      } else {
        assert t[j] == c[j - n - 2];
      }
    }
    assert t[..|x|] == x && t[|x|..] == "***";
    assert AllDot(x) by {
      forall j | 0 <= j < |x| ensures IsDot(x[j]) {
        if j < |a| { assert x[j] == a[j]; }
        else if j < n { if j >= |a| + 2 { assert x[j] == b[j - |a| - 2]; } }
        else if j >= n + 2 { assert x[j] == c[j - n - 2]; }
      }
    }
    ShortestCloseOf(t, "**", |x|);
  }

  /** The emphasis pass on `p*b*q*` with no other asterisk: `*b*` becomes emphasis and the
      last asterisk, with nothing after it, stays. */
  lemma {:induction false} EmphasisPass(p: string, b: string, q: string)
    requires '*' !in p && '*' !in q && b != [] && AllDot(b) && '*' !in b
    ensures ReplacePairs(p + "*" + b + "*" + q + "*", "*", "<em>", "</em>") == p + "<em>" + b + "</em>" + q + "*"
  {
    PairThenLone(p, b, q, "*", "<em>", "</em>");
  }

  /** `p d b d q d` with a one-character delimiter found nowhere else: the pair is
      replaced and the last delimiter stays. */
  lemma {:induction false} PairThenLone(p: string, b: string, q: string, d: string, open: string, close: string)
    requires |d| == 1 && d[0] !in p && d[0] !in q && b != [] && AllDot(b) && d[0] !in b
    ensures ReplacePairs(p + d + b + d + q + d, d, open, close) == p + open + b + close + q + d
  {
    var r := q + d;
    var m := d + b + d + r;
    assert p + d + b + d + q + d == p + m;
    assert ReplacePairs(p + m, d, open, close) == p + ReplacePairs(m, d, open, close) by {
      ReplacePairsSkip(p, m, d, open, close);
    }
    assert ReplacePairs(m, d, open, close) == open + b + close + ReplacePairs(r, d, open, close) by {
      MatchAtFront(b, r, d, open, close);
    }
    assert ReplacePairs(r, d, open, close) == r by {
      ReplacePairsSkip(q, d, d, open, close);
      assert ShortestClose(d[1..], d) == None;
      assert ReplacePairs(d, d, open, close) == d + ReplacePairs([], d, open, close);
    }
  }

}
