/** `clean_html`: for `script`, then `style`, then `svg`, one pass of
    `re.sub(r'<tag[^>]*>.*?</tag>', '', html, flags=re.DOTALL)`. */
module Html {
  import opened Common
  import opened Strings

  /** The first position at or after `from` where `pat` occurs in `s`. */
  function FindFrom(s: string, pat: string, from: nat): (r: Option<nat>)
    requires |pat| > 0
    ensures r.Some? ==> from <= r.value && r.value + |pat| <= |s| && s[r.value..r.value + |pat|] == pat
    ensures r.Some? ==> forall m :: from <= m < r.value ==> !StartsWith(s[m..], pat)
    ensures r.None? ==> forall m :: from <= m <= |s| ==> !StartsWith(s[m..], pat)
    decreases |s| - from
  {
    if from + |pat| > |s| then
      assert forall m :: from <= m <= |s| ==> |s[m..]| < |pat|;
      None
    else if s[from..from + |pat|] == pat then Some(from)
    else FindFrom(s, pat, from + 1)
  }

  function Opener(tag: string): string { "<" + tag }

  function Closer(tag: string): string { "</" + tag + ">" }

  /** `p` as a whole matches `<tag[^>]*>.*?</tag>`: the opener, characters other
      than `>`, a `>` at `j`, anything, and the closer. */
  ghost predicate MatchesWith(p: string, tag: string, j: nat) {
    && StartsWith(p, Opener(tag))
    && |Opener(tag)| <= j && j + 1 + |Closer(tag)| <= |p|
    && p[j] == '>'
    && (forall m :: |Opener(tag)| <= m < j ==> p[m] != '>')
    && p[|p| - |Closer(tag)|..] == Closer(tag)
  }

  ghost predicate Matches(p: string, tag: string) {
    exists j: nat :: MatchesWith(p, tag, j)
  }

  /** The length of the regex match starting at the beginning of `s`, if any.
      `[^>]*` cannot cross a `>`, so the `>` is the first one after the opener;
      the lazy `.*?` makes the match the shortest one. */
  function SpanLength(s: string, tag: string): (r: Option<nat>)
    ensures r.Some? ==> StartsWith(s, Opener(tag))
    ensures r.Some? ==> r.value <= |s| && Matches(s[..r.value], tag)
    ensures r.Some? ==> forall n :: 0 <= n < r.value ==> !Matches(s[..n], tag)
    ensures r.None? ==> forall n :: 0 <= n <= |s| ==> !Matches(s[..n], tag)
  {
    var o := Opener(tag);
    var c := Closer(tag);
    if !StartsWith(s, o) then
      NoOpenerAtStart(s, tag);
      None
    else match FindFrom(s, ">", |o|)
      case None =>
        NoGtNoMatch(s, tag);
        None
      case Some(j) =>
        FirstGt(s, tag, j);
        match FindFrom(s, c, j + 1)
        case None =>
          NoCloserNoMatch(s, tag, j, |s| + 1);
          None
        case Some(k) =>
          FoundMatch(s, tag, j, k);
          NoCloserNoMatch(s, tag, j, k);
          Some(k + |c|)
  }

  lemma NoOpenerAtStart(s: string, tag: string)
    requires !StartsWith(s, Opener(tag))
    ensures forall n :: 0 <= n <= |s| ==> !Matches(s[..n], tag)
  {
    forall n | 0 <= n <= |s| ensures !StartsWith(s[..n], Opener(tag)) {
      if |Opener(tag)| <= n {
        assert s[..n][..|Opener(tag)|] == s[..|Opener(tag)|];
      }
    }
  }

  /** The `>` that `FindFrom` reports is preceded by no other `>` after the opener. */
  lemma FirstGt(s: string, tag: string, j: nat)
    requires |Opener(tag)| <= j < |s| && s[j..j + 1] == ">"
    requires forall m :: |Opener(tag)| <= m < j ==> !StartsWith(s[m..], ">")
    ensures s[j] == '>'
    ensures forall m :: |Opener(tag)| <= m < j ==> s[m] != '>'
  {
    assert s[j..j + 1][0] == s[j];
    forall m | |Opener(tag)| <= m < j ensures s[m] != '>' {
      assert s[m..][..1] == [s[m]];
    }
  }

  /** With no `>` after the opener nothing matches. */
  lemma NoGtNoMatch(s: string, tag: string)
    requires forall m :: |Opener(tag)| <= m <= |s| ==> !StartsWith(s[m..], ">")
    ensures forall n :: 0 <= n <= |s| ==> !Matches(s[..n], tag)
  {
    forall n, j: nat | 0 <= n <= |s| ensures !MatchesWith(s[..n], tag, j) {
      if |Opener(tag)| <= j < n {
        assert s[j..][..1] == [s[j]];
      }
    }
  }

  /** The `>` of any match is the first one after the opener. */
  lemma GtIsFirst(s: string, tag: string, j: nat, n: nat, j': nat)
    requires n <= |s|
    requires |Opener(tag)| <= j < |s| && s[j] == '>'
    requires forall m :: |Opener(tag)| <= m < j ==> s[m] != '>'
    ensures MatchesWith(s[..n], tag, j') ==> j' == j
  {
  }

  /** No prefix ending before the first closer after the first `>` matches
      (with `k` beyond the end: no prefix at all). */
  lemma NoCloserNoMatch(s: string, tag: string, j: nat, k: nat)
    requires |Opener(tag)| <= j < |s| && s[j] == '>'
    requires forall m :: |Opener(tag)| <= m < j ==> s[m] != '>'
    requires forall m :: j + 1 <= m < k && m <= |s| ==> !StartsWith(s[m..], Closer(tag))
    ensures forall n :: 0 <= n <= |s| && n < k + |Closer(tag)| ==> !Matches(s[..n], tag)
  {
    var c := Closer(tag);
    forall n, j': nat | 0 <= n <= |s| && n < k + |c| ensures !MatchesWith(s[..n], tag, j') {
      GtIsFirst(s, tag, j, n, j');
      if j' == j && j + 1 + |c| <= n {
        assert s[n - |c|..][..|c|] == s[..n][n - |c|..];
      }
    }
  }

  /** The prefix up to the end of the first closer after the first `>` matches. */
  lemma FoundMatch(s: string, tag: string, j: nat, k: nat)
    requires StartsWith(s, Opener(tag))
    requires |Opener(tag)| <= j < |s| && s[j] == '>'
    requires forall m :: |Opener(tag)| <= m < j ==> s[m] != '>'
    requires j + 1 <= k && k + |Closer(tag)| <= |s| && s[k..k + |Closer(tag)|] == Closer(tag)
    ensures MatchesWith(s[..k + |Closer(tag)|], tag, j)
  {
    var n := k + |Closer(tag)|;
    assert s[..n][..|Opener(tag)|] == s[..|Opener(tag)|];
    assert s[..n][n - |Closer(tag)|..] == s[k..n];
  }

  /** One `re.sub` pass for one tag: scan left to right, delete each match, and
      resume after it. */
  function StripTag(s: string, tag: string): string
    decreases |s|
  {
    if |s| == 0 then []
    else match SpanLength(s, tag)
      case Some(n) => StripTag(s[n..], tag)
      case None => [s[0]] + StripTag(s[1..], tag)
  }

  /** A pass only deletes: its output is its input with some characters
      removed, the rest in their original order. */
  lemma {:induction false} StripTagSubseq(s: string, tag: string)
    ensures IsSubseq(StripTag(s, tag), s)
    decreases |s|
  {
    if |s| == 0 {
    } else {
      match SpanLength(s, tag)
      case Some(n) =>
        StripTagSubseq(s[n..], tag);
        SubseqDropPrefix(StripTag(s[n..], tag), s, n);
      case None =>
        StripTagSubseq(s[1..], tag);
        SubseqCons(s[0], StripTag(s[1..], tag), s[1..]);
        assert [s[0]] + s[1..] == s;
    }
  }

  /** `clean_html(html_content)`. */
  function CleanHtml(s: string): (r: string)
    ensures IsSubseq(r, s) && |r| <= |s|
  {
    var a := StripTag(s, "script");
    var b := StripTag(a, "style");
    var c := StripTag(b, "svg");
    StripTagSubseq(s, "script");
    StripTagSubseq(a, "style");
    StripTagSubseq(b, "svg");
    SubseqTrans(c, b, a);
    SubseqTrans(c, a, s);
    SubseqLength(c, s);
    c
  }

  /** Some position of `s` starts a match. */
  ghost predicate HasSpan(s: string, tag: string) {
    exists i :: 0 <= i < |s| && SpanLength(s[i..], tag).Some?
  }

  /** A pass changes its input exactly when some match exists; when it does, it
      makes the input strictly shorter. */
  lemma {:induction false} StripTagChangesIff(s: string, tag: string)
    ensures StripTag(s, tag) == s <==> !HasSpan(s, tag)
    ensures HasSpan(s, tag) ==> |StripTag(s, tag)| < |s|
    decreases |s|
  {
    if |s| > 0 {
      assert s[0..] == s;
      StripTagChangesIff(s[1..], tag);
      match SpanLength(s, tag)
      case Some(n) =>
        assert HasSpan(s, tag);
        assert n > 0 by {
          forall j: nat ensures !MatchesWith(s[..0], tag, j) {
          }
        }
        StripTagSubseq(s[n..], tag);
        SubseqLength(StripTag(s[n..], tag), s[n..]);
      case None =>
        if HasSpan(s, tag) {
          var i :| 0 <= i < |s| && SpanLength(s[i..], tag).Some?;
          assert i > 0;
          assert s[1..][i - 1..] == s[i..];
          assert HasSpan(s[1..], tag);
        }
        if HasSpan(s[1..], tag) {
          var i :| 0 <= i < |s[1..]| && SpanLength(s[1..][i..], tag).Some?;
          assert s[1..][i..] == s[i + 1..];
          assert HasSpan(s, tag);
        }
    }
  }

  /** No match can start where the opener does not occur. */
  lemma NoOpenerNoSpan(s: string, tag: string)
    requires !Contains(s, Opener(tag))
    ensures !HasSpan(s, tag)
  {
    ContainsAt(s, Opener(tag));
    forall i | 0 <= i < |s| ensures SpanLength(s[i..], tag).None? {
      assert !StartsWith(s[i..], Opener(tag));
    }
  }

  /** Text without `<script`, `<style` or `<svg` comes back unchanged. */
  lemma CleanHtmlNoTags(s: string)
    requires !Contains(s, Opener("script")) && !Contains(s, Opener("style")) && !Contains(s, Opener("svg"))
    ensures CleanHtml(s) == s
  {
    NoOpenerNoSpan(s, "script");
    StripTagChangesIff(s, "script");
    NoOpenerNoSpan(s, "style");
    StripTagChangesIff(s, "style");
    NoOpenerNoSpan(s, "svg");
    StripTagChangesIff(s, "svg");
  }

  /** A tag name as the three `clean_html` uses: not empty, not starting with
      `/`, and free of `<` and `>`. */
  predicate PlainTag(tag: string) {
    && |tag| > 0 && tag[0] != '/'
    && forall i :: 0 <= i < |tag| ==> tag[i] != '<' && tag[i] != '>'
  }

  lemma CleanedTagsPlain()
    ensures PlainTag("script") && PlainTag("style") && PlainTag("svg")
  {
  }

  /** The empty element `<tag></tag>`. */
  function EmptyElement(tag: string): string { Opener(tag) + ">" + Closer(tag) }

  /** `<` + `<tag></tag>` + `tag></tag>`: an empty element nested inside the
      characters of another. */
  function Nested(tag: string): string { "<" + EmptyElement(tag) + (tag + ">" + Closer(tag)) }

  /** One pass is not enough: removing an inner span can join the text around
      it into a new span. The pass deletes the inner element of `Nested(tag)`
      and leaves `<tag></tag>`, itself a span. */
  lemma {:induction false} CleanHtmlSinglePass(tag: string)
    requires PlainTag(tag)
    ensures HasSpan(Nested(tag), tag)
    ensures StripTag(Nested(tag), tag) == EmptyElement(tag)
    ensures HasSpan(StripTag(Nested(tag), tag), tag)
  {
    var e := EmptyElement(tag);
    NestedPass(tag);
    assert e[0..] == e;
    ElementIsSpan(e, tag, 0);
    NestedShape(tag);
    var x := Nested(tag);
    assert x[1..][..|e|] == e;
    ElementIsSpan(x, tag, 1);
  }

  lemma {:induction false} ElementIsSpan(s: string, tag: string, i: nat)
    requires PlainTag(tag) && i <= |s| && StartsWith(s[i..], EmptyElement(tag))
    ensures HasSpan(s, tag)
  {
    var e := EmptyElement(tag);
    assert s[i..] == e + s[i..][|e|..];
    SpanAtElement(s[i..], tag, s[i..][|e|..]);
  }

  lemma {:induction false} NestedPass(tag: string)
    requires PlainTag(tag)
    ensures StripTag(Nested(tag), tag) == EmptyElement(tag)
  {
    var inner := EmptyElement(tag);
    var b := tag + ">" + Closer(tag);
    var x := Nested(tag);
    NestedShape(tag);
    StripHead(x, tag);
    SpanAtElement(inner + b, tag, b);
    TailUntouched(tag);
    calc {
      StripTag(x, tag);
      [x[0]] + StripTag(x[1..], tag);
      [x[0]] + StripTag(inner + b, tag);
      [x[0]] + StripTag(b, tag);
      [x[0]] + b;
      inner;
    }
  }

  /** `Nested(tag)` is `<` followed by the element and the tail, and its first
      character starts no opener. */
  lemma NestedShape(tag: string)
    requires PlainTag(tag)
    ensures var x := Nested(tag);
      && |x| > 0 && x[1..] == EmptyElement(tag) + (tag + ">" + Closer(tag))
      && [x[0]] + (tag + ">" + Closer(tag)) == EmptyElement(tag)
      && !StartsWith(x, Opener(tag))
  {
    var x := Nested(tag);
    assert x[1] == '<';
    assert Opener(tag)[1] == tag[0];
    if |Opener(tag)| <= |x| {
      assert x[..|Opener(tag)|][1] == x[1];
    }
  }

  /** A text starting with the empty element has a span of exactly that length
      at its start, and a pass resumes right after it. */
  lemma {:induction false} SpanAtElement(s: string, tag: string, rest: string)
    requires PlainTag(tag) && s == EmptyElement(tag) + rest
    ensures SpanLength(s, tag) == Some(|EmptyElement(tag)|)
    ensures StripTag(s, tag) == StripTag(rest, tag)
  {
    var o, c := Opener(tag), Closer(tag);
    assert s[..|o|] == o;
    assert s[|o|..|o| + 1] == ">";
    assert FindFrom(s, ">", |o|) == Some(|o|);
    assert s[|o| + 1..|o| + 1 + |c|] == c;
    assert FindFrom(s, c, |o| + 1) == Some(|o| + 1);
    assert s[|EmptyElement(tag)|..] == rest;
  }

  /** `tag></tag>` holds no opener, so a pass leaves it alone. */
  lemma {:induction false} TailUntouched(tag: string)
    requires PlainTag(tag)
    ensures StripTag(tag + ">" + Closer(tag), tag) == tag + ">" + Closer(tag)
  {
    var o := Opener(tag);
    var b := tag + ">" + Closer(tag);
    forall i | 0 <= i <= |b| ensures !StartsWith(b[i..], o) {
      if i == |tag| + 1 {
        assert b[i..][1] == '/';
        if |o| <= |b[i..]| {
          assert b[i..][..|o|][1] == b[i..][1];
        }
      } else if i < |b| {
        assert b[i] != '<';
        NotOpenerAt(b[i..], tag);
      }
    }
    ContainsAt(b, o);
    NoOpenerNoSpan(b, tag);
    StripTagChangesIff(b, tag);
  }

  lemma NotOpenerAt(s: string, tag: string)
    requires |s| > 0 && s[0] != '<'
    ensures !StartsWith(s, Opener(tag))
  {
    if |Opener(tag)| <= |s| {
      assert s[..|Opener(tag)|][0] == s[0];
    }
  }

  /** A character that starts no opener passes through unchanged. */
  lemma StripHead(s: string, tag: string)
    requires |s| > 0 && !StartsWith(s, Opener(tag))
    ensures StripTag(s, tag) == [s[0]] + StripTag(s[1..], tag)
  {
  }
}
