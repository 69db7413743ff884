/**
 * Removal of the model's hidden reasoning: `strip_markdown` and
 * `MarkdownParser.clean_text`. Both run the same four regular-expression
 * substitutions; `clean_text` also strips surrounding whitespace.
 */
module Think {
  import opened Text

  const Open: string := "<think>"
  const Close: string := "</think>"

  /** Both tags carry '<' only as their first character. */
  predicate LtOnlyFirst(t: string) {
    |t| > 0 && t[0] == '<' && forall k :: 1 <= k < |t| ==> t[k] != '<'
  }

  lemma TagsLtOnlyFirst()
    ensures LtOnlyFirst(Open) && LtOnlyFirst(Close)
  {
    assert Open == ['<', 't', 'h', 'i', 'n', 'k', '>'];
    assert Close == ['<', '/', 't', 'h', 'i', 'n', 'k', '>'];
  }

  /**
   * `re.sub(r'<think>.*?</think>', '', s, flags=re.DOTALL)`: scanning left to
   * right, an opening tag that has a closing tag somewhere after it is removed
   * together with everything up to the first such closing tag.
   */
  function StripPairs(s: string): (r: string)
    decreases |s|
    ensures |r| <= |s|
  {
    if s == [] then []
    else if Open <= s && FindFrom(s, Close, |Open|).Some? then
      StripPairs(s[FindFrom(s, Close, |Open|).value + |Close|..])
    else [s[0]] + StripPairs(s[1..])
  }

  /** `re.sub(r'<think>.*$', '', s, flags=re.DOTALL)`: everything from the first opening tag on. */
  function StripTail(s: string): (r: string)
    ensures r <= s
    ensures !Contains(r, Open)
    ensures r == s || OccursAt(s, Open, |r|)
  {
    FindFromSpec(s, Open, 0);
    match FindFrom(s, Open, 0)
    case None => s
    case Some(p) => PrefixLacks(s, Open, p); s[..p]
  }

  /** `strip_markdown`: the four substitutions in order. */
  function StripThinking(s: string): string {
    RemoveAll(RemoveAll(StripTail(StripPairs(s)), Close), Open)
  }

  /** `MarkdownParser.clean_text`: the stripped text without surrounding whitespace. */
  function CleanText(s: string): (r: string)
    ensures Trimmed(r)
  {
    StripSpec(StripThinking(s));
    Strip(StripThinking(s))
  }

  /** No occurrence of t starts in [lo, hi) when s[lo..hi] lacks t and a '<' stands at hi. */
  lemma NoTagBefore(s: string, t: string, lo: int, hi: int, j: int)
    requires LtOnlyFirst(t)
    requires 0 <= lo <= j < hi < |s| && s[hi] == '<'
    requires !Contains(s[lo..hi], t)
    ensures !OccursAt(s, t, j)
  {
    if j + |t| <= hi {
      NotContains(s[lo..hi], t, j - lo);
      SliceOfSlice(s, lo, hi, j - lo, j - lo + |t|);
    } else if j + |t| <= |s| {
      assert s[j..j + |t|][hi - j] == '<';
      assert t[hi - j] != '<';
    }
  }

  lemma NotContainsSlice(s: string, t: string, lo: int, hi: int)
    requires 0 <= lo <= hi <= |s| && !Contains(s, t)
    ensures !Contains(s[lo..hi], t)
  {
    forall j ensures !OccursAt(s[lo..hi], t, j) {
      NotContains(s, t, lo + j);
      if 0 <= j && j + |t| <= hi - lo {
        SliceOfSlice(s, lo, hi, j, j + |t|);
      }
    }
    FindFromSpec(s[lo..hi], t, 0);
  }

  lemma {:induction false} StripPairsNoClose(s: string)
    requires !Contains(s, Close)
    ensures StripPairs(s) == s
  {
    if s != [] {
      FindFromSpec(s, Close, 0);
      FindFromSpec(s, Close, |Open|);
      NotContainsSlice(s, Close, 1, |s|);
      assert s[1..|s|] == s[1..];
      StripPairsNoClose(s[1..]);
    }
  }

  lemma {:induction false} StripPairsNoOpen(s: string)
    requires !Contains(s, Open)
    ensures StripPairs(s) == s
  {
    if s != [] {
      NotContains(s, Open, 0);
      NotContainsSlice(s, Open, 1, |s|);
      assert s[1..|s|] == s[1..];
      StripPairsNoOpen(s[1..]);
    }
  }

  /** `strip_markdown` leaves a text without either tag unchanged. */
  lemma NoTagsUnchanged(s: string)
    requires !Contains(s, Open) && !Contains(s, Close)
    ensures StripThinking(s) == s
  {
    StripPairsNoOpen(s);
    RemoveAllAbsent(s, Close);
    RemoveAllAbsent(s, Open);
  }

  /**
   * A matched pair disappears with everything between its tags: the opening tag
   * is the first one, and the closing tag is the first one after it.
   */
  lemma MatchedPairRemoved(a: string, b: string, c: string)
    requires !Contains(a, Open) && !Contains(b, Close)
    ensures StripPairs(a + Open + b + Close + c) == a + StripPairs(c)
  {
    Assoc(a, Open + b + Close, c);
    Regroup(a, Open, b, Close);
    SkipPrefix(a, Open + b + Close + c);
    PairAtStart(b, c);
  }

  /** Text before the first opening tag is copied as it is. */
  lemma {:induction false} SkipPrefix(a: string, rest: string)
    requires !Contains(a, Open) && Open <= rest
    ensures StripPairs(a + rest) == a + StripPairs(rest)
  {
    if a == [] {
      assert a + rest == rest;
    } else {
      SkipFirst(a, rest);
      NotContainsSlice(a, Open, 1, |a|);
      assert a[1..|a|] == a[1..];
      SkipPrefix(a[1..], rest);
      Assoc([a[0]], a[1..], StripPairs(rest));
      assert [a[0]] + a[1..] == a;
    }
  }

  /** A pair at the very start goes with everything up to the first closing tag. */
  lemma PairAtStart(b: string, c: string)
    requires !Contains(b, Close)
    ensures StripPairs(Open + b + Close + c) == StripPairs(c)
  {
    TagsLtOnlyFirst();
    var s := Open + b + Close + c;
    assert Open <= s;
    var q := |Open| + |b|;
    assert s[|Open|..q] == b;
    assert s[q..q + |Close|] == Close;
    forall j | |Open| <= j < q ensures !OccursAt(s, Close, j) {
      NoTagBefore(s, Close, |Open|, q, j);
    }
    FindFromFirst(s, Close, |Open|, q);
    assert s[q + |Close|..] == c;
  }

  /** Before the first opening tag the pair substitution copies one character at a time. */
  lemma SkipFirst(a: string, rest: string)
    requires a != [] && !Contains(a, Open) && Open <= rest
    ensures StripPairs(a + rest) == [a[0]] + StripPairs(a[1..] + rest)
  {
    TagsLtOnlyFirst();
    var s := a + rest;
    assert s[|a|] == '<';
    assert s[0..|a|] == a;
    NoTagBefore(s, Open, 0, |a|, 0);
    assert !(Open <= s);
    assert s[1..] == a[1..] + rest;
  }

  /** The reasoning block is hidden: `a<think>b</think>c` becomes `ac` when a, b and c hold no tags. */
  lemma ThinkingBlockHidden(a: string, b: string, c: string)
    requires !Contains(b, Close)
    requires !Contains(a + c, Open) && !Contains(a + c, Close)
    ensures StripThinking(a + Open + b + Close + c) == a + c
  {
    NotContainsSlice(a + c, Open, 0, |a|);
    NotContainsSlice(a + c, Open, |a|, |a + c|);
    assert (a + c)[0..|a|] == a && (a + c)[|a|..|a + c|] == c;
    MatchedPairRemoved(a, b, c);
    StripPairsNoOpen(c);
    FindFromSpec(a + c, Open, 0);
    assert StripTail(a + c) == a + c;
    RemoveAllAbsent(a + c, Close);
    RemoveAllAbsent(a + c, Open);
  }

  /** An opening tag without a closing tag hides everything after it. */
  lemma UnterminatedHidden(a: string, b: string)
    requires !Contains(a, Open) && !Contains(a, Close) && !Contains(b, Close)
    ensures StripThinking(a + Open + b) == a
  {
    TagsLtOnlyFirst();
    var s := a + Open + b;
    var n := |a| + |Open|;
    assert s[|a|] == '<' && s[0..|a|] == a && s[n..|s|] == b && s[|a|..n] == Open;
    forall j ensures !OccursAt(s, Close, j) {
      if 0 <= j < |a| {
        NoTagBefore(s, Close, 0, |a|, j);
      } else if j == |a| {
        assert s[|a|..n][1] == 't';
        assert s[j + 1] == 't' && Close[1] == '/';
        assert j + |Close| <= |s| ==> s[j..j + |Close|][1] != Close[1];
      } else if |a| < j < n {
        assert s[j] == s[|a|..n][j - |a|] == Open[j - |a|] && s[j] != '<';
        assert j + |Close| <= |s| ==> s[j..j + |Close|][0] != Close[0];
      } else if j >= n {
        NotContains(b, Close, j - n);
        assert j + |Close| <= |s| ==> s[j..j + |Close|] == b[j - n..j - n + |Close|];
      }
    }
    FindFromSpec(s, Close, 0);
    StripPairsNoClose(s);
    forall j | 0 <= j < |a| ensures !OccursAt(s, Open, j) {
      NoTagBefore(s, Open, 0, |a|, j);
    }
    assert OccursAt(s, Open, |a|);
    FindFromFirst(s, Open, 0, |a|);
    assert StripTail(s) == a;
    RemoveAllAbsent(a, Close);
    RemoveAllAbsent(a, Open);
  }

  /** A text without '<' holds no tag. */
  lemma NoLtNoTag(s: string, t: string)
    requires '<' !in s && LtOnlyFirst(t)
    ensures !Contains(s, t)
  {
    forall j ensures !OccursAt(s, t, j) {
      if 0 <= j && j + |t| <= |s| {
        assert s[j..j + |t|][0] == s[j];
      }
    }
    FindFromSpec(s, t, 0);
  }

  /** `<think>secret</think>visible` renders as `visible`. */
  lemma SecretHidden()
    ensures CleanText("<think>secret</think>visible") == "visible"
  {
    var b, c := "secret", "visible";
    assert "<think>secret</think>visible" == [] + Open + b + Close + c;
    TagsLtOnlyFirst();
    NoLtNoTag(b, Close);
    assert [] + c == c;
    NoLtNoTag(c, Open);
    NoLtNoTag(c, Close);
    ThinkingBlockHidden([], b, c);
    assert c[0] == 'v' && c[|c| - 1] == 'e';
    StripTrimmed(c);
  }
}
