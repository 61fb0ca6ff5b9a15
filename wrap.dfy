/** `wrapText`: greedy, single-pass word wrapping. The text is split on
    single spaces; each word is appended to the current line while the
    measured width of `line + " " + word` stays strictly below the limit,
    and otherwise the line is emitted and the word starts the next one.

    Widths come from the document's font metrics, in the font that is active
    when `wrapText` runs; here that is a `Measure` function of the font and
    the string. */
module Wrap {
  import opened Text
  import opened Drawing

  /** Rendered width of a string in a font. */
  type Measure = (Font, string) -> int

  /** A list of lists, flattened in order. */
  function Flatten(groups: seq<seq<string>>): seq<string>
  {
    if groups == [] then [] else groups[0] + Flatten(groups[1..])
  }

  /** Each group of words joined into one line with single spaces. */
  function JoinEach(groups: seq<seq<string>>): (lines: seq<string>)
    ensures |lines| == |groups|
    ensures forall i :: 0 <= i < |groups| ==> lines[i] == Join(groups[i], ' ')
  {
    seq(|groups|, i requires 0 <= i < |groups| => Join(groups[i], ' '))
  }

  /** The greedy rule, stated on groups of words: `cur` is the line being
      filled and `rest` the words still to place. */
  function Greedy(cur: seq<string>, rest: seq<string>, maxWidth: int, measure: Measure, font: Font)
    : seq<seq<string>>
    requires |cur| >= 1
    decreases |rest|
  {
    if rest == [] then [cur]
    else if measure(font, Join(cur + [rest[0]], ' ')) < maxWidth then
      Greedy(cur + [rest[0]], rest[1..], maxWidth, measure, font)
    else
      [cur] + Greedy([rest[0]], rest[1..], maxWidth, measure, font)
  }

  /** The groups of words `wrapText` turns into lines: the first word seeds
      the first line. */
  function WrapGroups(words: seq<string>, maxWidth: int, measure: Measure, font: Font)
    : seq<seq<string>>
    requires |words| >= 1
  {
    Greedy([words[0]], words[1..], maxWidth, measure, font)
  }

  /** The lines `wrapText(text, maxWidth)` returns when `font` is active. */
  function WrapLines(text: string, maxWidth: int, measure: Measure, font: Font): seq<string>
  {
    JoinEach(WrapGroups(Split(text, ' '), maxWidth, measure, font))
  }

  /** Every prefix of two or more words of `group` measured strictly below
      `maxWidth`: each extension of the line was accepted. */
  ghost predicate Fits(group: seq<string>, maxWidth: int, measure: Measure, font: Font)
  {
    forall k :: 2 <= k <= |group| ==> measure(font, Join(group[..k], ' ')) < maxWidth
  }

  /** Groups `groups` are exactly the greedy wrap of `words`: an in-order
      partition into non-empty groups, each line grown while the candidate
      fit, and each break taken because the next word did not. */
  ghost predicate IsGreedyWrap(words: seq<string>, groups: seq<seq<string>>,
                               maxWidth: int, measure: Measure, font: Font)
  {
    && Flatten(groups) == words
    && (forall i :: 0 <= i < |groups| ==> |groups[i]| >= 1)
    && (forall i :: 0 <= i < |groups| ==> Fits(groups[i], maxWidth, measure, font))
    && (forall i :: 1 <= i < |groups| ==>
          measure(font, Join(groups[i - 1] + [groups[i][0]], ' ')) >= maxWidth)
  }

  /** `wrapText(text, maxWidth)` with `font` active. */
  method WrapText(text: string, maxWidth: int, measure: Measure, font: Font)
    returns (lines: seq<string>)
    ensures lines == WrapLines(text, maxWidth, measure, font)
    ensures 1 <= |lines| <= |Split(text, ' ')|
    ensures text == "" ==> lines == [""]
    ensures Join(lines, ' ') == text
    ensures forall i :: 0 <= i < |lines| && ' ' in lines[i] ==>
              measure(font, lines[i]) < maxWidth
  {
    var words := Split(text, ' ');
    lines := [];
    var currentLine := words[0];
    ghost var group := [words[0]];
    ghost var done: seq<seq<string>> := [];
    for i := 1 to |words|
      invariant |group| >= 1 && currentLine == Join(group, ' ')
      invariant lines == JoinEach(done)
      invariant done + Greedy(group, words[i..], maxWidth, measure, font)
                == WrapGroups(words, maxWidth, measure, font)
    {
      var word := words[i];
      JoinSnoc(group, word, ' ');
      assert words[i..][1..] == words[i + 1..];
      var width := measure(font, currentLine + " " + word);
      if width < maxWidth {
        currentLine := currentLine + " " + word;
        group := group + [word];
      } else {
        lines := lines + [currentLine];
        done := done + [group];
        currentLine := word;
        group := [word];
      }
    }
    assert done + [group] == WrapGroups(words, maxWidth, measure, font);
    lines := lines + [currentLine];
    WrapLinesProperties(text, maxWidth, measure, font);
  }

  // ---------------------------------------------------------------------
  // Properties of the greedy rule

  lemma {:induction false} FlattenAppend(a: seq<seq<string>>, b: seq<seq<string>>)
    ensures Flatten(a + b) == Flatten(a) + Flatten(b)
    decreases |a|
  {
    if a == [] {
      assert a + b == b;
    } else {
      FlattenAppend(a[1..], b);
      assert (a + b)[1..] == a[1..] + b;
    }
  }

  /** The groups are a contiguous, in-order partition of the words into
      non-empty groups, and every group fits. */
  lemma {:induction false} GreedyPartition(cur: seq<string>, rest: seq<string>,
                                           maxWidth: int, measure: Measure, font: Font)
    requires |cur| >= 1
    requires Fits(cur, maxWidth, measure, font)
    ensures var g := Greedy(cur, rest, maxWidth, measure, font);
      && Flatten(g) == cur + rest
      && (forall i :: 0 <= i < |g| ==> |g[i]| >= 1)
      && (forall i :: 0 <= i < |g| ==> Fits(g[i], maxWidth, measure, font))
    decreases |rest|
  {
    var g := Greedy(cur, rest, maxWidth, measure, font);
    if rest == [] {
      assert Flatten(g) == cur + Flatten([]);
    } else {
      var w := rest[0];
      if measure(font, Join(cur + [w], ' ')) < maxWidth {
        var ext := cur + [w];
        forall k | 2 <= k <= |ext|
          ensures measure(font, Join(ext[..k], ' ')) < maxWidth
        {
          if k < |ext| {
            assert ext[..k] == cur[..k];
          } else {
            assert ext[..k] == ext;
          }
        }
        GreedyPartition(ext, rest[1..], maxWidth, measure, font);
        assert ext + rest[1..] == cur + rest;
      } else {
        var tail := Greedy([w], rest[1..], maxWidth, measure, font);
        GreedyPartition([w], rest[1..], maxWidth, measure, font);
        assert g == [cur] + tail;
        assert g[1..] == tail;
        assert [w] + rest[1..] == rest;
      }
    }
  }

  /** Every break is forced: the first word of the next line did not fit on
      the line before it. */
  lemma {:induction false} GreedyBreaks(cur: seq<string>, rest: seq<string>,
                                        maxWidth: int, measure: Measure, font: Font)
    requires |cur| >= 1
    ensures var g := Greedy(cur, rest, maxWidth, measure, font);
      && |g| >= 1 && |cur| <= |g[0]| && g[0][..|cur|] == cur
      && forall i :: 1 <= i < |g| ==>
           |g[i]| >= 1 && measure(font, Join(g[i - 1] + [g[i][0]], ' ')) >= maxWidth
    decreases |rest|
  {
    var g := Greedy(cur, rest, maxWidth, measure, font);
    if rest != [] {
      var w := rest[0];
      if measure(font, Join(cur + [w], ' ')) < maxWidth {
        GreedyBreaks(cur + [w], rest[1..], maxWidth, measure, font);
        assert (cur + [w])[..|cur|] == cur;
        assert g[0][..|cur|] == g[0][..|cur| + 1][..|cur|];
      } else {
        var tail := Greedy([w], rest[1..], maxWidth, measure, font);
        GreedyBreaks([w], rest[1..], maxWidth, measure, font);
        assert g == [cur] + tail;
        assert tail[0][..1] == [w];
        assert tail[0][0] == w;
        forall i | 1 <= i < |g|
          ensures |g[i]| >= 1 && measure(font, Join(g[i - 1] + [g[i][0]], ' ')) >= maxWidth
        {
          if i > 1 {
            assert g[i - 1] == tail[i - 2] && g[i] == tail[i - 1];
          } else {
            assert g[0] == cur && g[1] == tail[0];
          }
        }
      }
    }
  }

  /** At least one line, and never more lines than there are words. */
  lemma {:induction false} GreedyCount(cur: seq<string>, rest: seq<string>,
                                       maxWidth: int, measure: Measure, font: Font)
    requires |cur| >= 1
    ensures 1 <= |Greedy(cur, rest, maxWidth, measure, font)| <= |rest| + 1
    decreases |rest|
  {
    if rest != [] {
      if measure(font, Join(cur + [rest[0]], ' ')) < maxWidth {
        GreedyCount(cur + [rest[0]], rest[1..], maxWidth, measure, font);
      } else {
        GreedyCount([rest[0]], rest[1..], maxWidth, measure, font);
      }
    }
  }

  /** The greedy groups of any non-empty word list satisfy the declarative
      description of greedy wrapping. */
  lemma WrapGroupsIsGreedy(words: seq<string>, maxWidth: int, measure: Measure, font: Font)
    requires |words| >= 1
    ensures IsGreedyWrap(words, WrapGroups(words, maxWidth, measure, font), maxWidth, measure, font)
  {
    GreedyPartition([words[0]], words[1..], maxWidth, measure, font);
    GreedyBreaks([words[0]], words[1..], maxWidth, measure, font);
    assert [words[0]] + words[1..] == words;
  }

  /** Conversely, the declarative description leaves no choice: any
      grouping that satisfies it is the one the greedy rule computes. */
  lemma GreedyWrapUnique(words: seq<string>, groups: seq<seq<string>>,
                         maxWidth: int, measure: Measure, font: Font)
    requires |words| >= 1
    requires IsGreedyWrap(words, groups, maxWidth, measure, font)
    ensures groups == WrapGroups(words, maxWidth, measure, font)
  {
    var tail := groups[1..];
    assert groups != [];
    assert Flatten(groups) == groups[0] + Flatten(tail);
    assert groups[0][..1] == [words[0]];
    GreedyDetermined([words[0]], words[1..], groups, maxWidth, measure, font);
  }

  /** The induction behind `GreedyWrapUnique`: groups whose first group
      extends the open line `cur` and which otherwise obey the greedy
      description are what `Greedy(cur, rest)` produces. */
  lemma {:induction false} GreedyDetermined(cur: seq<string>, rest: seq<string>,
                                            groups: seq<seq<string>>,
                                            maxWidth: int, measure: Measure, font: Font)
    requires |cur| >= 1
    requires Flatten(groups) == cur + rest
    requires |groups| >= 1 && |cur| <= |groups[0]| && groups[0][..|cur|] == cur
    requires forall i :: 0 <= i < |groups| ==> |groups[i]| >= 1
    requires forall i :: 0 <= i < |groups| ==> Fits(groups[i], maxWidth, measure, font)
    requires forall i :: 1 <= i < |groups| ==>
               measure(font, Join(groups[i - 1] + [groups[i][0]], ' ')) >= maxWidth
    ensures groups == Greedy(cur, rest, maxWidth, measure, font)
    decreases |rest|
  {
    var g0 := groups[0];
    var tail := groups[1..];
    assert Flatten(groups) == g0 + Flatten(tail);
    if |g0| > |cur| {
      assert (g0 + Flatten(tail))[|cur|] == g0[|cur|];
      assert rest != [] && g0[|cur|] == rest[0];
      var ext := cur + [rest[0]];
      assert g0[..|cur| + 1] == ext;
      assert measure(font, Join(g0[..|cur| + 1], ' ')) < maxWidth;
      assert ext + rest[1..] == cur + rest;
      GreedyDetermined(ext, rest[1..], groups, maxWidth, measure, font);
    } else {
      assert g0 == cur;
      assert (g0 + Flatten(tail))[|cur|..] == Flatten(tail);
      assert (cur + rest)[|cur|..] == rest;
      if tail == [] {
        assert Flatten(tail) == [];
        assert rest == [];
      } else {
        assert Flatten(tail) == tail[0] + Flatten(tail[1..]);
        assert rest == Flatten(tail);
        assert rest[0] == tail[0][0];
        assert tail[0][..1] == [rest[0]];
        assert [rest[0]] + rest[1..] == rest;
        assert measure(font, Join(groups[0] + [groups[1][0]], ' ')) >= maxWidth;
        GreedyDetermined([rest[0]], rest[1..], tail, maxWidth, measure, font);
        assert groups == [cur] + tail;
      }
    }
  }

  /** Joining each group and then all lines with spaces is the same as
      joining all the words. */
  lemma {:induction false} JoinEachFlatten(groups: seq<seq<string>>)
    requires |groups| >= 1
    requires forall i :: 0 <= i < |groups| ==> |groups[i]| >= 1
    ensures Join(JoinEach(groups), ' ') == Join(Flatten(groups), ' ')
    decreases |groups|
  {
    if |groups| == 1 {
      assert groups[1..] == [];
      assert Flatten(groups) == groups[0] + Flatten([]) == groups[0];
      assert JoinEach(groups) == [Join(groups[0], ' ')];
    } else {
      var tail := groups[1..];
      JoinEachFlatten(tail);
      assert JoinEach(groups)[1..] == JoinEach(tail);
      FlattenNonEmpty(tail);
      JoinAppend(groups[0], Flatten(tail), ' ');
    }
  }

  lemma {:induction false} FlattenNonEmpty(groups: seq<seq<string>>)
    requires |groups| >= 1 && |groups[0]| >= 1
    ensures |Flatten(groups)| >= 1
  {
  }

  /** What `wrapText` promises of its lines: joining them with single
      spaces gives the text back; there is at least one line and at most
      one per word; a line holding two or more words (so a space) measures
      strictly less than the limit, and a single over-wide word stays a
      whole line of its own. */
  lemma WrapLinesProperties(text: string, maxWidth: int, measure: Measure, font: Font)
    ensures var lines := WrapLines(text, maxWidth, measure, font);
      && 1 <= |lines| <= |Split(text, ' ')|
      && Join(lines, ' ') == text
      && forall i :: 0 <= i < |lines| && ' ' in lines[i] ==> measure(font, lines[i]) < maxWidth
  {
    var words := Split(text, ' ');
    var groups := WrapGroups(words, maxWidth, measure, font);
    var lines := JoinEach(groups);
    GreedyCount([words[0]], words[1..], maxWidth, measure, font);
    WrapGroupsIsGreedy(words, maxWidth, measure, font);
    JoinEachFlatten(groups);
    JoinSplit(text, ' ');
    forall i | 0 <= i < |lines| && ' ' in lines[i]
      ensures measure(font, lines[i]) < maxWidth
    {
      var g := groups[i];
      if |g| == 1 {
        WordOfPartition(words, groups, i);
        assert false;
      }
      assert g[..|g|] == g;
    }
  }

  /** Every word of a group of a partition of `words` is one of the words. */
  lemma WordOfPartition(words: seq<string>, groups: seq<seq<string>>, i: nat)
    requires Flatten(groups) == words
    requires i < |groups| && |groups[i]| >= 1
    requires forall k :: 0 <= k < |words| ==> ' ' !in words[k]
    ensures ' ' !in groups[i][0]
  {
    FlattenAppend(groups[..i], groups[i..]);
    assert groups == groups[..i] + groups[i..];
    assert Flatten(groups[i..]) == groups[i] + Flatten(groups[i + 1..]);
    assert words[|Flatten(groups[..i])|] == groups[i][0];
  }

  /** Widths never shrink when a space and another word are added on either
      side: true of any metric that sums non-negative glyph widths. */
  ghost predicate Widening(measure: Measure, font: Font)
  {
    forall a: string, b: string ::
      measure(font, a + " " + b) >= measure(font, a) && measure(font, a + " " + b) >= measure(font, b)
  }

  /** A line opened by a word at least `maxWidth` wide is never extended. */
  lemma WideHead(w: string, rest: seq<string>, maxWidth: int, measure: Measure, font: Font)
    requires Widening(measure, font) && measure(font, w) >= maxWidth
    ensures Greedy([w], rest, maxWidth, measure, font)[0] == [w]
  {
    if rest != [] {
      JoinSnoc([w], rest[0], ' ');
      assert measure(font, w + " " + rest[0]) >= measure(font, w);
    }
  }

  /** A word of `rest` at least `maxWidth` wide becomes a line of its own:
      group `k` is that word alone, and the groups before it hold exactly
      the words before it. */
  lemma {:induction false} GreedyWide(cur: seq<string>, rest: seq<string>, j: nat,
                                      maxWidth: int, measure: Measure, font: Font) returns (k: nat)
    requires |cur| >= 1 && j < |rest|
    requires Widening(measure, font) && measure(font, rest[j]) >= maxWidth
    ensures var g := Greedy(cur, rest, maxWidth, measure, font);
      k < |g| && g[k] == [rest[j]] && |Flatten(g[..k])| == |cur| + j
    decreases |rest|
  {
    var w := rest[0];
    JoinSnoc(cur, w, ' ');
    var fits := measure(font, Join(cur + [w], ' ')) < maxWidth;
    var g := Greedy(cur, rest, maxWidth, measure, font);
    if j == 0 {
      assert measure(font, Join(cur, ' ') + " " + w) >= measure(font, w);
      WideHead(w, rest[1..], maxWidth, measure, font);
      assert g == [cur] + Greedy([w], rest[1..], maxWidth, measure, font);
      k := 1;
      assert g[..k] == [cur];
      assert Flatten([cur]) == cur + Flatten([]);
    } else if fits {
      k := GreedyWide(cur + [w], rest[1..], j - 1, maxWidth, measure, font);
    } else {
      var tail := Greedy([w], rest[1..], maxWidth, measure, font);
      var k' := GreedyWide([w], rest[1..], j - 1, maxWidth, measure, font);
      assert g == [cur] + tail;
      k := k' + 1;
      assert g[..k] == [cur] + tail[..k'];
      assert Flatten([cur] + tail[..k']) == cur + Flatten(tail[..k']);
    }
  }

  /** `wrapText` never splits a word: with widening widths, word `i` at
      least `maxWidth` wide is emitted verbatim as line `k`, alone in its
      group, and the lines before it hold exactly the `i` words before it. */
  lemma WideWordAlone(text: string, i: nat, maxWidth: int, measure: Measure, font: Font) returns (k: nat)
    requires i < |Split(text, ' ')|
    requires Widening(measure, font) && measure(font, Split(text, ' ')[i]) >= maxWidth
    ensures var groups := WrapGroups(Split(text, ' '), maxWidth, measure, font);
      && k < |groups|
      && groups[k] == [Split(text, ' ')[i]]
      && |Flatten(groups[..k])| == i
    ensures k < |WrapLines(text, maxWidth, measure, font)|
    ensures WrapLines(text, maxWidth, measure, font)[k] == Split(text, ' ')[i]
  {
    var words := Split(text, ' ');
    var groups := WrapGroups(words, maxWidth, measure, font);
    if i == 0 {
      WideHead(words[0], words[1..], maxWidth, measure, font);
      k := 0;
      assert groups[..0] == [];
    } else {
      k := GreedyWide([words[0]], words[1..], i - 1, maxWidth, measure, font);
      assert words[1..][i - 1] == words[i];
    }
    assert JoinEach(groups)[k] == Join([words[i]], ' ');
  }
}
