/**
 * Line reconstruction: the words of a page, in the order the PDF layer
 * delivers them, are cut into maximal runs in which each word's `top` is
 * within 5 units of the previous word's `top`.
 */
module Lines {
  import opened Geometry
  import opened Text

  /** The vertical tolerance, in page units, between consecutive words of one line. */
  const Tolerance: real := 5.0

  function Abs(x: real): real { if x >= 0.0 then x else -x }

  /** `next` continues the line that `prev` ends. */
  predicate Close(prev: Word, next: Word) {
    Abs(next.top - prev.top) < Tolerance
  }

  /** The concatenation of the lines, in order. */
  function Flatten(lines: seq<seq<Word>>): seq<Word> {
    if lines == [] then [] else Flatten(lines[..|lines| - 1]) + lines[|lines| - 1]
  }

  /** One step of the grouping: `w` joins the last line when it is close to `prev`, the word before it. */
  function AddWord(lines: seq<seq<Word>>, prev: Word, w: Word): seq<seq<Word>>
    requires lines != []
  {
    if Close(prev, w) then lines[..|lines| - 1] + [lines[|lines| - 1] + [w]]
    else lines + [[w]]
  }

  /**
   * The reference grouping, word by word: the next word joins the last
   * line when it is close to the word before it, and starts a new line
   * otherwise.
   */
  function Group(words: seq<Word>): (lines: seq<seq<Word>>)
    ensures |lines| == 0 <==> |words| == 0
  {
    if |words| <= 1 then (if words == [] then [] else [words])
    else AddWord(Group(words[..|words| - 1]), words[|words| - 2], words[|words| - 1])
  }

  /** No line is empty. */
  ghost predicate NonEmptyLines(lines: seq<seq<Word>>) {
    forall k :: 0 <= k < |lines| ==> lines[k] != []
  }

  /** Consecutive words of a line are close. */
  ghost predicate CloseWithin(lines: seq<seq<Word>>) {
    forall k, j :: 0 <= k < |lines| && 0 < j < |lines[k]| ==> Close(lines[k][j - 1], lines[k][j])
  }

  /** The first word of each line is not close to the last word of the line before it. */
  ghost predicate BreaksBetween(lines: seq<seq<Word>>)
    requires NonEmptyLines(lines)
  {
    forall k :: 0 < k < |lines| ==> !Close(lines[k - 1][|lines[k - 1]| - 1], lines[k][0])
  }

  /**
   * What a grouping of a page's words must satisfy: no line is empty, the
   * lines concatenate back to the words, consecutive words of a line are
   * close, and the first word of each line is not close to the last word
   * of the line before it.
   */
  ghost predicate ValidGrouping(words: seq<Word>, lines: seq<seq<Word>>) {
    NonEmptyLines(lines) && Flatten(lines) == words && CloseWithin(lines) && BreaksBetween(lines)
  }

  lemma {:induction false} FlattenLength(lines: seq<seq<Word>>)
    requires NonEmptyLines(lines)
    ensures |Flatten(lines)| >= |lines|
  {
    if lines != [] {
      FlattenLength(lines[..|lines| - 1]);
    }
  }

  /** The last word of the concatenation is the last word of the last line. */
  lemma FlattenLast(lines: seq<seq<Word>>)
    requires lines != [] && NonEmptyLines(lines)
    ensures Flatten(lines) != []
    ensures Flatten(lines)[|Flatten(lines)| - 1] == lines[|lines| - 1][|lines[|lines| - 1]| - 1]
  {
  }

  /** Appending a word to the last line keeps a valid grouping valid when it is close to the last word. */
  lemma ExtendLastLine(words: seq<Word>, lines: seq<seq<Word>>, w: Word)
    requires ValidGrouping(words, lines) && lines != []
    requires Close(lines[|lines| - 1][|lines[|lines| - 1]| - 1], w)
    ensures ValidGrouping(words + [w], lines[..|lines| - 1] + [lines[|lines| - 1] + [w]])
  {
    var m := |lines|;
    var front := lines[..m - 1];
    var grown := front + [lines[m - 1] + [w]];
    assert lines == front + [lines[m - 1]];
    assert grown[..m - 1] == front;
    assert Flatten(grown) == Flatten(front) + (lines[m - 1] + [w]);
    assert forall k :: 0 <= k < m - 1 ==> grown[k] == lines[k];
    assert CloseWithin(grown) by {
      forall k, j | 0 <= k < m && 0 < j < |grown[k]| ensures Close(grown[k][j - 1], grown[k][j]) {
        if k < m - 1 || j < |grown[k]| - 1 {
          assert grown[k][j - 1] == lines[k][j - 1] && grown[k][j] == lines[k][j];
        }
      }
    }
  }

  /** Starting a new line with a word keeps a valid grouping valid when it is not close to the last word. */
  lemma StartNewLine(words: seq<Word>, lines: seq<seq<Word>>, w: Word)
    requires ValidGrouping(words, lines) && lines != []
    requires !Close(lines[|lines| - 1][|lines[|lines| - 1]| - 1], w)
    ensures ValidGrouping(words + [w], lines + [[w]])
  {
    var grown := lines + [[w]];
    assert grown[..|lines|] == lines;
    assert forall k :: 0 <= k < |lines| ==> grown[k] == lines[k];
  }

  /** The grouping the extractor computes has all the properties of a valid grouping. */
  lemma {:induction false} GroupIsValid(words: seq<Word>)
    ensures ValidGrouping(words, Group(words))
  {
    var n := |words|;
    if n == 1 {
      assert Flatten([words]) == Flatten([]) + words;
    } else if n > 1 {
      var prefix := words[..n - 1];
      var g := Group(prefix);
      GroupIsValid(prefix);
      FlattenLast(g);
      assert prefix + [words[n - 1]] == words;
      if Close(words[n - 2], words[n - 1]) {
        ExtendLastLine(prefix, g, words[n - 1]);
      } else {
        StartNewLine(prefix, g, words[n - 1]);
      }
    }
  }

  /** Taking the last word off a valid grouping whose last line has two or more words leaves a valid grouping. */
  lemma ShrinkLastLine(words: seq<Word>, front: seq<seq<Word>>, last: seq<Word>)
    requires ValidGrouping(words, front + [last]) && |last| >= 2
    ensures |words| >= 2 && last[|last| - 1] == words[|words| - 1]
    ensures ValidGrouping(words[..|words| - 1], front + [last[..|last| - 1]])
    ensures Close(words[|words| - 2], words[|words| - 1])
  {
    var lines := front + [last];
    var m := |lines|;
    var shorter := front + [last[..|last| - 1]];
    assert lines[..m - 1] == front;
    assert words == Flatten(front) + last;
    assert shorter[..m - 1] == front;
    assert Flatten(shorter) == Flatten(front) + last[..|last| - 1];
    assert Flatten(shorter) == words[..|words| - 1];
    assert forall k :: 0 <= k < m - 1 ==> shorter[k] == lines[k];
    assert CloseWithin(shorter) by {
      forall k, j | 0 <= k < m && 0 < j < |shorter[k]| ensures Close(shorter[k][j - 1], shorter[k][j]) {
        assert shorter[k][j - 1] == lines[k][j - 1] && shorter[k][j] == lines[k][j];
      }
    }
    assert NonEmptyLines(shorter);
    assert BreaksBetween(shorter) by {
      forall k | 0 < k < m ensures !Close(shorter[k - 1][|shorter[k - 1]| - 1], shorter[k][0]) {
        assert shorter[k][0] == lines[k][0];
        assert shorter[k - 1] == lines[k - 1];
      }
    }
    assert words[|words| - 2] == last[|last| - 2];
    assert Close(lines[m - 1][|last| - 2], lines[m - 1][|last| - 1]);
  }

  lemma FrontLinesValid(front: seq<seq<Word>>, last: seq<Word>)
    requires NonEmptyLines(front + [last]) && CloseWithin(front + [last])
    requires BreaksBetween(front + [last])
    ensures NonEmptyLines(front) && CloseWithin(front) && BreaksBetween(front)
  {
    assert forall k :: 0 <= k < |front| ==> (front + [last])[k] == front[k];
  }

  /** Dropping a last line of one word from a valid grouping leaves a valid grouping. */
  lemma DropLastLine(words: seq<Word>, front: seq<seq<Word>>, w: Word)
    requires ValidGrouping(words, front + [[w]])
    ensures |words| >= 1 && words[|words| - 1] == w
    ensures ValidGrouping(words[..|words| - 1], front)
    ensures |words| >= 2 ==> !Close(words[|words| - 2], w)
  {
    var lines := front + [[w]];
    assert lines[..|lines| - 1] == front;
    assert words == Flatten(front) + [w];
    assert words[..|words| - 1] == Flatten(front);
    FrontLinesValid(front, [w]);
    if |words| >= 2 {
      FlattenLength(front);
      FlattenLast(front);
      assert !Close(lines[|lines| - 2][|lines[|lines| - 2]| - 1], lines[|lines| - 1][0]);
    }
  }

  /** One step of `Group` when the last word joins the last line. */
  lemma GroupJoins(words: seq<Word>, front: seq<seq<Word>>, init: seq<Word>)
    requires |words| >= 2 && front + [init] == Group(words[..|words| - 1])
    requires Close(words[|words| - 2], words[|words| - 1])
    ensures front + [init + [words[|words| - 1]]] == Group(words)
  {
    var g := front + [init];
    assert g[..|g| - 1] == front;
  }

  lemma SplitLast(s: seq<Word>)
    requires s != []
    ensures s == s[..|s| - 1] + [s[|s| - 1]]
  {
  }

  /** One step of `Group` when the last word starts a line of its own. */
  lemma GroupBreaks(words: seq<Word>, front: seq<seq<Word>>)
    requires |words| >= 1 && front == Group(words[..|words| - 1])
    requires |words| >= 2 ==> !Close(words[|words| - 2], words[|words| - 1])
    ensures front + [[words[|words| - 1]]] == Group(words)
  {
    if |words| == 1 {
      assert words == [words[0]];
    }
  }

  /** A valid grouping is unique: the four properties determine the lines completely. */
  lemma {:induction false} GroupingUnique(words: seq<Word>, lines: seq<seq<Word>>)
    requires ValidGrouping(words, lines)
    ensures lines == Group(words)
  {
    if lines != [] {
      var front := lines[..|lines| - 1];
      var last := lines[|lines| - 1];
      assert lines == front + [last];
      if |last| >= 2 {
        var init := last[..|last| - 1];
        ShrinkLastLine(words, front, last);
        GroupingUnique(words[..|words| - 1], front + [init]);
        GroupJoins(words, front, init);
        SplitLast(last);
      } else {
        assert last == [last[0]];
        DropLastLine(words, front, last[0]);
        GroupingUnique(words[..|words| - 1], front);
        GroupBreaks(words, front);
      }
    }
  }

  /**
   * The extractor's line loop: `current` is the line being built; a word
   * whose `top` is within the tolerance of the current line's last word
   * joins it, any other word closes it and starts a new one.
   */
  method GroupWords(words: seq<Word>) returns (lines: seq<seq<Word>>)
    ensures ValidGrouping(words, lines)
    ensures lines == Group(words)
  {
    lines := [];
    if words == [] {
      return;
    }
    var current := [words[0]];
    assert words[..1] == [words[0]];
    for i := 1 to |words|
      invariant current != [] && current[|current| - 1] == words[i - 1]
      invariant lines + [current] == Group(words[..i])
    {
      ghost var upto := words[..i + 1];
      assert upto[..|upto| - 1] == words[..i];
      if Abs(words[i].top - current[|current| - 1].top) < Tolerance {
        GroupJoins(upto, lines, current);
        current := current + [words[i]];
      } else {
        GroupBreaks(upto, lines + [current]);
        lines := lines + [current];
        current := [words[i]];
      }
    }
    lines := lines + [current];
    assert words[..|words|] == words;
    GroupIsValid(words);
  }

  /** Python's `" ".join(texts)` over the words of a line. */
  function JoinTexts(line: seq<Word>): string {
    if line == [] then []
    else if |line| == 1 then line[0].text
    else JoinTexts(line[..|line| - 1]) + " " + line[|line| - 1].text
  }

  /** The text of a reconstructed line: its words joined by single spaces, stripped. */
  function LineText(line: seq<Word>): (r: string)
    ensures Trimmed(r)
  {
    Strip(JoinTexts(line))
  }
}
