/** The admin blog form: the URL slug generated from a post's title, and the slug
    fallback applied when the form is submitted. */
module BlogManager {
  import opened Text

  /** The regex class `[a-z0-9]`. */
  predicate IsAlnum(c: char) {
    'a' <= c <= 'z' || '0' <= c <= '9'
  }

  /** Every character of `s` is a lower-case letter, a digit or a dash. */
  predicate SlugAlphabet(s: string) {
    forall i :: 0 <= i < |s| ==> IsAlnum(s[i]) || s[i] == '-'
  }

  predicate NoEdgeDash(s: string) {
    s == [] || (s[0] != '-' && s[|s| - 1] != '-')
  }

  predicate NoDoubleDash(s: string) {
    forall i :: 0 <= i < |s| - 1 ==> !(s[i] == '-' && s[i + 1] == '-')
  }

  /** The shape of every generated slug. */
  predicate IsSlug(s: string) {
    SlugAlphabet(s) && NoEdgeDash(s) && NoDoubleDash(s)
  }

  /** The characters of `s` in `[a-z0-9]`, in order. */
  function Alnums(s: string): string {
    if s == [] then [] else (if IsAlnum(s[0]) then [s[0]] else []) + Alnums(s[1..])
  }

  /** `s` with every dash removed. */
  function Dashless(s: string): string {
    if s == [] then [] else (if s[0] != '-' then [s[0]] else []) + Dashless(s[1..])
  }

  // ---------------------------------------------------------------------------
  // The three steps of generateSlug
  // ---------------------------------------------------------------------------

  /** The leading run of characters outside `[a-z0-9]` removed. */
  function DropRun(s: string): (r: string)
    ensures |r| <= |s| && (s != [] && !IsAlnum(s[0]) ==> |r| < |s|)
  {
    if s != [] && !IsAlnum(s[0]) then DropRun(s[1..]) else s
  }

  /** `replace(/[^a-z0-9]+/g, '-')`: each maximal run of characters outside `[a-z0-9]`
      becomes one dash. */
  function Collapse(s: string): string
    decreases |s|
  {
    if s == [] then []
    else if IsAlnum(s[0]) then [s[0]] + Collapse(s[1..])
    else "-" + Collapse(DropRun(s))
  }

  /** Leading dashes removed (the `^-+` alternative). */
  function DropLeadingDashes(s: string): (r: string)
    ensures |r| <= |s|
  {
    if s != [] && s[0] == '-' then DropLeadingDashes(s[1..]) else s
  }

  /** Trailing dashes removed (the `-+$` alternative). */
  function DropTrailingDashes(s: string): (r: string)
    ensures |r| <= |s|
  {
    if s != [] && s[|s| - 1] == '-' then DropTrailingDashes(s[..|s| - 1]) else s
  }

  /** `replace(/^-+|-+$/g, '')`: the dash runs at both ends removed (an all-dash string
      is consumed whole by the first alternative). */
  function StripDashes(s: string): string {
    DropTrailingDashes(DropLeadingDashes(s))
  }

  /** `generateSlug(title)`. */
  function GenerateSlug(title: string): string {
    StripDashes(Collapse(LowerString(title)))
  }

  // ---------------------------------------------------------------------------
  // Properties of the steps
  // ---------------------------------------------------------------------------

  /** `DropRun` removes only characters outside `[a-z0-9]` and stops at one inside it. */
  lemma {:induction false} DropRunSpec(s: string)
    ensures var r := DropRun(s);
            r == s[|s| - |r|..] && Alnums(s) == Alnums(r) && (r == [] || IsAlnum(r[0]))
  {
    if s != [] && !IsAlnum(s[0]) {
      DropRunSpec(s[1..]);
      var r := DropRun(s[1..]);
      assert s[1..][|s| - 1 - |r|..] == s[|s| - |r|..];
    }
  }

  /** The collapsed text is empty only for empty input, and starts with the input's first
      character when that is a letter or digit, with a dash otherwise. */
  lemma CollapseHead(s: string)
    requires s != []
    ensures Collapse(s) != [] && Collapse(s)[0] == (if IsAlnum(s[0]) then s[0] else '-')
  {
  }

  /** Collapsing yields only letters, digits and dashes, never two dashes in a row. */
  lemma {:induction false} CollapseShape(s: string)
    ensures SlugAlphabet(Collapse(s)) && NoDoubleDash(Collapse(s))
    decreases |s|
  {
    if s != [] {
      if IsAlnum(s[0]) {
        CollapseShape(s[1..]);
      } else {
        var r := DropRun(s);
        DropRunSpec(s);
        CollapseShape(r);
        if r != [] {
          CollapseHead(r);
        }
        var c := Collapse(r);
        assert Collapse(s) == "-" + c;
        assert forall i :: 1 <= i < |c| + 1 ==> ("-" + c)[i] == c[i - 1];
      }
    }
  }

  /** Collapsing keeps the letters and digits, in order, and adds only dashes. */
  lemma {:induction false} CollapseAlnums(s: string)
    ensures Dashless(Collapse(s)) == Alnums(s)
    decreases |s|
  {
    if s != [] {
      if IsAlnum(s[0]) {
        CollapseAlnums(s[1..]);
        assert ([s[0]] + Collapse(s[1..]))[1..] == Collapse(s[1..]);
      } else {
        var r := DropRun(s);
        DropRunSpec(s);
        CollapseAlnums(r);
        assert ("-" + Collapse(r))[1..] == Collapse(r);
      }
    }
  }

  /** Text made of letters, digits and single dashes passes the collapse unchanged. */
  lemma {:induction false} CollapseOfSlugText(s: string)
    requires SlugAlphabet(s) && NoDoubleDash(s)
    ensures Collapse(s) == s
    decreases |s|
  {
    if s != [] {
      assert SlugAlphabet(s[1..]) && NoDoubleDash(s[1..]);
      CollapseOfSlugText(s[1..]);
      if !IsAlnum(s[0]) {
        assert DropRun(s) == s[1..] by {
          if |s| > 1 { assert s[1] != '-'; }
        }
      }
      assert [s[0]] + s[1..] == s;
    }
  }

  /** `DropLeadingDashes` keeps a suffix, removes only dashes and leaves none at the front. */
  lemma {:induction false} DropLeadingSpec(s: string)
    ensures var r := DropLeadingDashes(s);
            r == s[|s| - |r|..] && (forall i :: 0 <= i < |s| - |r| ==> s[i] == '-')
            && (r == [] || r[0] != '-')
  {
    if s != [] && s[0] == '-' {
      DropLeadingSpec(s[1..]);
      var r := DropLeadingDashes(s[1..]);
      assert s[1..][|s| - 1 - |r|..] == s[|s| - |r|..];
      assert forall i :: 1 <= i < |s| - |r| ==> s[i] == s[1..][i - 1];
    }
  }

  /** `DropTrailingDashes` keeps a prefix, removes only dashes and leaves none at the back. */
  lemma {:induction false} DropTrailingSpec(s: string)
    ensures var r := DropTrailingDashes(s);
            r == s[..|r|] && (forall i :: |r| <= i < |s| ==> s[i] == '-')
            && (r == [] || r[|r| - 1] != '-')
  {
    if s != [] && s[|s| - 1] == '-' {
      DropTrailingSpec(s[..|s| - 1]);
      var r := DropTrailingDashes(s[..|s| - 1]);
      assert s[..|s| - 1][..|r|] == s[..|r|];
    }
  }

  /** The stripped text is a slice of the input with only dashes cut off either side. */
  lemma StripSlice(s: string)
    ensures var r, i := StripDashes(s), |s| - |DropLeadingDashes(s)|;
            i + |r| <= |s| && r == s[i..i + |r|]
            && (forall k :: 0 <= k < i ==> s[k] == '-')
            && (forall k :: i + |r| <= k < |s| ==> s[k] == '-')
  {
    var a := DropLeadingDashes(s);
    var r := DropTrailingDashes(a);
    DropLeadingSpec(s);
    DropTrailingSpec(a);
    var i := |s| - |a|;
    assert r == s[i..i + |r|];
    assert forall k :: i + |r| <= k < |s| ==> s[k] == a[k - i];
  }

  /** Stripping leaves no dash at either end. */
  lemma StripEdges(s: string)
    ensures NoEdgeDash(StripDashes(s))
  {
    var a := DropLeadingDashes(s);
    DropLeadingSpec(s);
    DropTrailingSpec(a);
    var r := DropTrailingDashes(a);
    if r != [] {
      assert r[0] == a[0];
    }
  }

  /** A slice of text keeps its alphabet and its lack of double dashes. */
  lemma SliceShape(s: string, i: nat, j: nat)
    requires i <= j <= |s| && SlugAlphabet(s) && NoDoubleDash(s)
    ensures SlugAlphabet(s[i..j]) && NoDoubleDash(s[i..j])
  {
    assert forall k :: 0 <= k < j - i ==> s[i..j][k] == s[i + k];
  }

  lemma {:induction false} DashlessConcat(a: string, b: string)
    ensures Dashless(a + b) == Dashless(a) + Dashless(b)
    decreases |a|
  {
    if a == [] {
      assert a + b == b;
    } else {
      DashlessConcat(a[1..], b);
      assert (a + b)[1..] == a[1..] + b;
    }
  }

  lemma {:induction false} DashlessOfDashes(a: string)
    requires forall k :: 0 <= k < |a| ==> a[k] == '-'
    ensures Dashless(a) == []
    decreases |a|
  {
    if a != [] {
      DashlessOfDashes(a[1..]);
    }
  }

  /** Stripping removes only dashes. */
  lemma StripDashless(s: string)
    ensures Dashless(StripDashes(s)) == Dashless(s)
  {
    StripSlice(s);
    var r := StripDashes(s);
    var i := |s| - |DropLeadingDashes(s)|;
    var head, tail := s[..i], s[i + |r|..];
    assert s == head + r + tail;
    DashlessConcat(head + r, tail);
    DashlessConcat(head, r);
    DashlessOfDashes(head);
    DashlessOfDashes(tail);
    assert [] + Dashless(r) + [] == Dashless(r);
  }

  /** Text without a dash at either end passes the strip unchanged. */
  lemma StripOfNoEdge(s: string)
    requires NoEdgeDash(s)
    ensures StripDashes(s) == s
  {
  }

  // ---------------------------------------------------------------------------
  // Properties of generateSlug
  // ---------------------------------------------------------------------------

  /** Stripping text made of letters, digits and single dashes gives a slug. */
  lemma StripShape(c: string)
    requires SlugAlphabet(c) && NoDoubleDash(c)
    ensures IsSlug(StripDashes(c))
  {
    StripSlice(c);
    var i := |c| - |DropLeadingDashes(c)|;
    SliceShape(c, i, i + |StripDashes(c)|);
    StripEdges(c);
  }

  /** A generated slug has only `[a-z0-9-]`, no dash at either end and no `--`. */
  lemma SlugShape(title: string)
    ensures IsSlug(GenerateSlug(title))
  {
    CollapseShape(LowerString(title));
    StripShape(Collapse(LowerString(title)));
  }

  /** Without its dashes, the slug is exactly the letters and digits of the lower-cased
      title, in order. */
  lemma SlugLetters(title: string)
    ensures Dashless(GenerateSlug(title)) == Alnums(LowerString(title))
  {
    var c := Collapse(LowerString(title));
    StripDashless(c);
    CollapseAlnums(LowerString(title));
  }

  /** A slug-shaped string is its own slug. */
  lemma SlugOfSlug(s: string)
    requires IsSlug(s)
    ensures GenerateSlug(s) == s
  {
    assert LowerString(s) == s by {
      forall i | 0 <= i < |s| ensures Lower(s[i]) == s[i] {
        assert IsAlnum(s[i]) || s[i] == '-';
      }
    }
    CollapseOfSlugText(s);
    StripOfNoEdge(s);
  }

  /** Generating a slug from a slug changes nothing. */
  lemma SlugIdempotent(title: string)
    ensures GenerateSlug(GenerateSlug(title)) == GenerateSlug(title)
  {
    SlugShape(title);
    SlugOfSlug(GenerateSlug(title));
  }

  /** A string is left unchanged by the generator exactly when it has the slug shape. */
  lemma SlugFixedPoints(s: string)
    ensures GenerateSlug(s) == s <==> IsSlug(s)
  {
    SlugShape(s);
    if IsSlug(s) {
      SlugOfSlug(s);
    }
  }

  /** A slug-shaped string with no letter or digit is empty. */
  lemma SlugWithoutLetters(s: string)
    requires IsSlug(s) && Dashless(s) == []
    ensures s == []
  {
  }

  /** The slug is empty exactly when the lower-cased title has no letter or digit
      (in particular, the empty title gives the empty slug). */
  lemma EmptySlug(title: string)
    ensures GenerateSlug(title) == [] <==> Alnums(LowerString(title)) == []
  {
    SlugShape(title);
    SlugLetters(title);
    if Alnums(LowerString(title)) == [] {
      SlugWithoutLetters(GenerateSlug(title));
    }
  }

  // ---------------------------------------------------------------------------
  // The submitted form
  // ---------------------------------------------------------------------------

  /** The fields of the blog form. */
  datatype BlogForm = BlogForm(
    title: string,
    slug: string,
    excerpt: string,
    content: string,
    featuredImage: string,
    published: bool,
    tags: string,
    author: string)

  /** `dataToSubmit` in `handleSubmit`: the form with its slug, or the slug generated
      from the title when the slug field is empty. */
  function DataToSubmit(form: BlogForm): (r: BlogForm)
    ensures r == form.(slug := r.slug)
    ensures form.slug != [] ==> r.slug == form.slug
    ensures form.slug == [] ==> r.slug == GenerateSlug(form.title)
    ensures form.slug == [] ==> IsSlug(r.slug) && Dashless(r.slug) == Alnums(LowerString(form.title))
  {
    var slug := if form.slug != [] then form.slug else GenerateSlug(form.title);
    SlugShape(form.title);
    SlugLetters(form.title);
    form.(slug := slug)
  }

  /** The submitted slug is empty only when the slug field was left empty and the title
      has no letter or digit. */
  lemma SubmittedSlugEmpty(form: BlogForm)
    ensures DataToSubmit(form).slug == [] <==> form.slug == [] && Alnums(LowerString(form.title)) == []
  {
    EmptySlug(form.title);
  }
}
