/**
 * `MainView.process_img_url`: a dropped path is cleaned with
 * `strip("{}")`, then `replace("\n", "")`, then, if it both starts and ends
 * with a double quote, `[1:-1]`; the cleaned path opens the canvas view, and
 * any failure there is reported, not propagated. main.py's `load_image` and
 * main1.py's `process_img_url` clean paths with the same three steps.
 */
module DropPath {
  import opened Wrappers
  import opened Geometry
  import opened Subsequences

  predicate IsBrace(c: char) { c == '{' || c == '}' }

  /** The leading half of `strip("{}")`: what is left is a suffix that does not start with a brace. */
  function StripLeft(s: string): (r: string)
    ensures |r| <= |s| && r == s[|s| - |r|..]
    ensures forall k :: 0 <= k < |s| - |r| ==> IsBrace(s[k])
    ensures r != [] ==> !IsBrace(r[0])
  {
    if s != [] && IsBrace(s[0]) then
      var r := StripLeft(s[1..]);
      assert s[1..][|s| - 1 - |r|..] == s[|s| - |r|..];
      assert forall k :: 1 <= k < |s| - |r| ==> s[k] == s[1..][k - 1];
      r
    else s
  }

  /** The trailing half of `strip("{}")`: what is left is a prefix that does not end with a brace. */
  function StripRight(s: string): (r: string)
    ensures |r| <= |s| && r == s[..|r|]
    ensures forall k :: |r| <= k < |s| ==> IsBrace(s[k])
    ensures r != [] ==> !IsBrace(r[|r| - 1])
  {
    if s != [] && IsBrace(s[|s| - 1]) then
      var r := StripRight(s[..|s| - 1]);
      assert s[..|s| - 1][..|r|] == s[..|r|];
      assert forall k :: |r| <= k < |s| - 1 ==> s[k] == s[..|s| - 1][k];
      r
    else s
  }

  /**
   * `s.strip("{}")`: the result is the slice of `s` left after dropping the
   * longest run of braces at each end; an all-brace string strips to empty.
   */
  function StripBraces(s: string): (r: string)
    ensures var lo := |s| - |StripLeft(s)|;
      lo + |r| <= |s| && r == s[lo..lo + |r|]
      && (forall k :: 0 <= k < lo ==> IsBrace(s[k]))
      && (forall k :: lo + |r| <= k < |s| ==> IsBrace(s[k]))
    ensures r != [] ==> !IsBrace(r[0]) && !IsBrace(r[|r| - 1])
  {
    var a := StripLeft(s);
    var r := StripRight(a);
    PrefixOfSuffix(s, a, r);
    r
  }

  /** A prefix `r` of a suffix `a` of `s` is a slice of `s`; what `a` drops after `r` is what `s` drops. */
  lemma PrefixOfSuffix(s: string, a: string, r: string)
    requires |a| <= |s| && a == s[|s| - |a|..]
    requires forall k :: 0 <= k < |s| - |a| ==> IsBrace(s[k])
    requires a != [] ==> !IsBrace(a[0])
    requires |r| <= |a| && r == a[..|r|]
    requires forall k :: |r| <= k < |a| ==> IsBrace(a[k])
    requires r != [] ==> !IsBrace(r[|r| - 1])
    ensures var lo := |s| - |a|;
      lo + |r| <= |s| && r == s[lo..lo + |r|]
      && (forall k :: 0 <= k < lo ==> IsBrace(s[k]))
      && (forall k :: lo + |r| <= k < |s| ==> IsBrace(s[k]))
    ensures r != [] ==> !IsBrace(r[0]) && !IsBrace(r[|r| - 1])
  {
    var lo := |s| - |a|;
    forall k | lo + |r| <= k < |s|
      ensures IsBrace(s[k])
    {
      assert s[k] == a[k - lo];
    }
    if r != [] {
      assert r[0] == a[0];
    }
  }

  /**
   * `s.replace("\n", "")`: no newline is left and every other character
   * survives as often as it occurred (in order, by `RemoveNewlinesIsSubseq`).
   */
  function RemoveNewlines(s: string): (r: string)
    ensures forall k :: 0 <= k < |r| ==> r[k] != '\n'
    ensures multiset(r) == multiset(s)['\n' := 0]
    ensures |r| == |s| - multiset(s)['\n']
  {
    if s == [] then []
    else
      var head := if s[0] == '\n' then [] else [s[0]];
      var rest := RemoveNewlines(s[1..]);
      NewlineCount(s, head, rest);
      head + rest
  }

  /** One step of `RemoveNewlines`: the multiset and length bookkeeping. */
  lemma NewlineCount(s: string, head: string, rest: string)
    requires s != [] && head == (if s[0] == '\n' then [] else [s[0]])
    requires multiset(rest) == multiset(s[1..])['\n' := 0]
    requires |rest| == |s[1..]| - multiset(s[1..])['\n']
    ensures multiset(head + rest) == multiset(s)['\n' := 0]
    ensures |head + rest| == |s| - multiset(s)['\n']
  {
    assert s == [s[0]] + s[1..];
    assert multiset(s) == multiset{s[0]} + multiset(s[1..]);
  }

  predicate Quoted(s: string) { |s| >= 1 && s[0] == '"' && s[|s| - 1] == '"' }

  /**
   * `s[1:-1]` when `s` starts and ends with `"`; a lone `"` becomes empty.
   * Quoting the result again gives back a quoted input.
   */
  function Unquote(s: string): (r: string)
    ensures !Quoted(s) ==> r == s
    ensures Quoted(s) && |s| >= 2 ==> ['"'] + r + ['"'] == s
    ensures Quoted(s) && |s| < 2 ==> r == []
  {
    if Quoted(s) then (if |s| >= 2 then s[1..|s| - 1] else []) else s
  }

  /**
   * The three cleaning steps, in the source's order. Cleaning only deletes
   * characters: the result is a subsequence of the dropped text, never
   * longer, and holds no newline.
   */
  function CleanPath(s: string): (r: string)
    ensures IsSubseq(r, s)
    ensures |r| <= |s|
    ensures forall k :: 0 <= k < |r| ==> r[k] != '\n'
  {
    var b := StripBraces(s);
    StripBracesIsSubseq(s);
    var c := RemoveNewlines(b);
    RemoveNewlinesIsSubseq(b);
    SubseqTransitive(c, b, s);
    UnquoteIsSubseq(c);
    SubseqTransitive(Unquote(c), c, s);
    SubseqNoLonger(Unquote(c), s);
    Unquote(c)
  }

  lemma {:induction false} RemoveNewlinesIsSubseq(s: string)
    ensures IsSubseq(RemoveNewlines(s), s)
    decreases |s|
  {
    if s != [] {
      RemoveNewlinesIsSubseq(s[1..]);
      var r := RemoveNewlines(s);
      if s[0] != '\n' {
        assert r[1..] == RemoveNewlines(s[1..]);
      } else {
        assert r == RemoveNewlines(s[1..]);
      }
    }
  }

  lemma StripBracesIsSubseq(s: string)
    ensures IsSubseq(StripBraces(s), s)
  {
    var a := StripLeft(s);
    SuffixIsSubseq(s, |s| - |a|);
    var b := StripRight(a);
    PrefixIsSubseq(a, |b|);
    SubseqTransitive(b, a, s);
  }

  /** Unquoting deletes at most the two quotes, and adds no newline. */
  lemma UnquoteIsSubseq(c: string)
    ensures IsSubseq(Unquote(c), c)
    ensures (forall k :: 0 <= k < |c| ==> c[k] != '\n') ==>
      forall k :: 0 <= k < |Unquote(c)| ==> Unquote(c)[k] != '\n'
  {
    if Quoted(c) && |c| >= 2 {
      SuffixIsSubseq(c[..|c| - 1], 1);
      PrefixIsSubseq(c, |c| - 1);
      assert c[..|c| - 1][1..] == c[1..|c| - 1];
      SubseqTransitive(Unquote(c), c[..|c| - 1], c);
    } else if Quoted(c) {
      EmptyIsSubseq(c);
    } else {
      SubseqReflexive(c);
    }
  }


  lemma {:induction false} RemoveNewlinesIdentity(s: string)
    requires forall k :: 0 <= k < |s| ==> s[k] != '\n'
    ensures RemoveNewlines(s) == s
    decreases |s|
  {
    if s != [] {
      RemoveNewlinesIdentity(s[1..]);
    }
  }

  /** A path with no brace at either end, no newline and no surrounding quotes is returned unchanged. */
  lemma CleanPathIdentity(s: string)
    requires s == [] || (!IsBrace(s[0]) && !IsBrace(s[|s| - 1]))
    requires forall k :: 0 <= k < |s| ==> s[k] != '\n'
    requires !Quoted(s)
    ensures CleanPath(s) == s
  {
    RemoveNewlinesIdentity(s);
  }

  /** Quotes shield their content: braces inside them survive the strip, and only the quotes go. */
  lemma QuotesShieldContent(t: string)
    requires forall k :: 0 <= k < |t| ==> t[k] != '\n'
    ensures CleanPath(['"'] + t + ['"']) == t
  {
    var s := ['"'] + t + ['"'];
    assert s[0] == '"' && s[|s| - 1] == '"';
    assert StripBraces(s) == s;
    assert forall k :: 0 < k < |s| - 1 ==> s[k] == t[k - 1];
    RemoveNewlinesIdentity(s);
    assert s[1..|s| - 1] == t;
  }

  /**
   * A leading newline shields a brace from `strip`, and is deleted afterwards:
   * "\n{p}" is cleaned to "{p", not to p.
   */
  lemma NewlineShieldsBrace(t: string)
    requires t != [] && !IsBrace(t[|t| - 1])
    requires forall k :: 0 <= k < |t| ==> t[k] != '\n'
    ensures CleanPath(['\n', '{'] + t + ['}']) == ['{'] + t
  {
    var u := ['{'] + t;
    var v := ['\n'] + u;
    ShieldParts(t, u, v);
    StripClosingBrace(v);
    DropLeadingNewline(u);
    CleanPathSteps(v + ['}'], v, u);
  }

  /** How the shielded path is assembled from `t`. */
  lemma ShieldParts(t: string, u: string, v: string)
    requires t != [] && u == ['{'] + t && v == ['\n'] + u
    requires forall k :: 0 <= k < |t| ==> t[k] != '\n'
    ensures ['\n', '{'] + t + ['}'] == v + ['}']
    ensures v != [] && v[0] == '\n' && v[|v| - 1] == t[|t| - 1]
    ensures forall k :: 0 <= k < |u| ==> u[k] != '\n'
  {
    assert forall k :: 0 < k < |u| ==> u[k] == t[k - 1];
  }

  /** The cleanup of `s`, given the outcome of its first two steps on a path not in quotes. */
  lemma CleanPathSteps(s: string, b: string, c: string)
    requires StripBraces(s) == b && RemoveNewlines(b) == c
    requires c == [] || c[0] != '"'
    ensures CleanPath(s) == c
  {
  }

  /** A leading newline is dropped and a newline-free rest kept. */
  lemma DropLeadingNewline(u: string)
    requires forall k :: 0 <= k < |u| ==> u[k] != '\n'
    ensures RemoveNewlines(['\n'] + u) == u
  {
    assert (['\n'] + u)[1..] == u;
    RemoveNewlinesIdentity(u);
  }

  /** Stripping `v + "}"` removes just the brace when `v` has no brace at either end. */
  lemma StripClosingBrace(v: string)
    requires v != [] && !IsBrace(v[0]) && !IsBrace(v[|v| - 1])
    ensures StripBraces(v + ['}']) == v
  {
    var s := v + ['}'];
    assert StripLeft(s) == s;
    assert s[..|s| - 1] == v;
    assert StripRight(v) == v;
  }

  /** A lone double quote both starts and ends the string, so it becomes empty. */
  lemma LoneQuoteEmpties()
    ensures CleanPath("\"") == ""
  {
    assert StripLeft("\"") == "\"";
    assert StripRight("\"") == "\"";
    RemoveNewlinesIdentity("\"");
  }

  /**
   * The braces Tk puts around a dropped path containing spaces are removed:
   * any path without newlines, quotes around it or braces at its ends comes
   * back unchanged from its braced form.
   */
  lemma BracesUnwrap(t: string)
    requires t != [] && !IsBrace(t[0]) && !IsBrace(t[|t| - 1]) && !Quoted(t)
    requires forall k :: 0 <= k < |t| ==> t[k] != '\n'
    ensures CleanPath(['{'] + t + ['}']) == t
  {
    var s := ['{'] + t + ['}'];
    var u := t + ['}'];
    assert s[1..] == u && u[0] == t[0];
    assert StripLeft(s) == u;
    assert u[..|u| - 1] == t;
    assert StripRight(u) == t;
    RemoveNewlinesIdentity(t);
  }

  /** Dimensions of an image Pillow opened: both positive. */
  type Dimensions = s: Size | Positive(s) witness Size(1, 1)

  /** What the drop leads to: the canvas view on the cleaned path, or an error dialog. */
  datatype ViewOutcome = CanvasShown(path: string, fitted: Fitted) | ErrorShown

  /**
   * `process_img_url`: the cleaned path is opened (`open` stands for
   * `Image.open`, `None` for a failure) and fitted to the canvas; an exception
   * from either becomes an error dialog.
   */
  function ProcessImgUrl(raw: string, canvas: Size, open: string -> Option<Dimensions>): (r: ViewOutcome)
    requires Positive(canvas)
    ensures r.CanvasShown? ==> r.path == CleanPath(raw) && open(CleanPath(raw)).Some?
    ensures r.CanvasShown? ==> FitToCanvas(open(CleanPath(raw)).value, canvas) == Fit(r.fitted)
    ensures r.ErrorShown? <==>
      (open(CleanPath(raw)).None? || FitToCanvas(open(CleanPath(raw)).value, canvas).EmptyPreview?)
  {
    var path := CleanPath(raw);
    match open(path)
    case None => ErrorShown
    case Some(size) =>
      match FitToCanvas(size, canvas)
      case EmptyPreview => ErrorShown
      case Fit(f) => CanvasShown(path, f)
  }
}
