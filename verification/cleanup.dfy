/**
 * The post-processing the extractor's entry point applies before saving:
 * each question's correct letters are deduplicated and sorted, and
 * questions with no text or no options are dropped.
 */
module Cleanup {
  import opened Questions
  import opened Parser

  /** Strictly increasing, hence free of duplicates. */
  predicate StrictlySorted(s: seq<char>) {
    forall i, j :: 0 <= i < j < |s| ==> s[i] < s[j]
  }

  /** Insert `c` into a strictly sorted list, unless it is already there. */
  function Insert(s: seq<char>, c: char): (r: seq<char>)
    requires StrictlySorted(s)
    ensures StrictlySorted(r)
    ensures forall x :: x in r <==> x in s || x == c
  {
    if s == [] then [c]
    else if c < s[0] then [c] + s
    else if c == s[0] then s
    else
      var rest := Insert(s[1..], c);
      assert forall x :: x in rest ==> s[0] < x;
      [s[0]] + rest
  }

  /** Python's `sorted(list(set(xs)))`: the distinct letters of `xs` in increasing order. */
  function SortedSet(xs: seq<char>): (r: seq<char>)
    ensures StrictlySorted(r)
    ensures forall x :: x in r <==> x in xs
  {
    if xs == [] then [] else Insert(SortedSet(xs[..|xs| - 1]), xs[|xs| - 1])
  }

  /** Two strictly sorted lists with the same elements are equal, so `SortedSet` is the one sorted list of the set. */
  lemma {:induction false} SortedListsWithSameElementsAreEqual(a: seq<char>, b: seq<char>)
    requires StrictlySorted(a) && StrictlySorted(b)
    requires forall x :: x in a <==> x in b
    ensures a == b
  {
    if a != [] {
      assert a[0] in b;
    }
    if b != [] {
      assert b[0] in a;
    }
    if a != [] && b != [] {
      assert a[0] == b[0];
      assert forall x :: x in a[1..] <==> x in b[1..] by {
        forall x ensures x in a[1..] <==> x in b[1..] {
          if x in a[1..] { assert x in a && x != a[0]; }
          if x in b[1..] { assert x in b && x != b[0]; }
        }
      }
      SortedListsWithSameElementsAreEqual(a[1..], b[1..]);
      assert a == [a[0]] + a[1..] && b == [b[0]] + b[1..];
    }
  }

  /** A question with its correct letters deduplicated and sorted; the set of correct letters is unchanged. */
  function Normalize(q: Question): (r: Question)
    ensures r.id == q.id && r.text == q.text && r.options == q.options
    ensures StrictlySorted(r.correct)
    ensures forall c :: c in r.correct <==> c in q.correct
    ensures WellFormed(q) ==> WellFormed(r)
  {
    q.(correct := SortedSet(q.correct))
  }

  /** A question is kept when it has some text and at least one option. */
  predicate Kept(q: Question) {
    q.text != [] && q.options != []
  }

  /** The questions that survive the clean-up, normalised, in their original order. */
  function Cleaned(data: seq<Question>): (r: seq<Question>)
    ensures |r| <= |data|
  {
    if data == [] then []
    else
      var q := data[|data| - 1];
      Cleaned(data[..|data| - 1]) + (if Kept(q) then [Normalize(q)] else [])
  }

  /** The positions of the questions that are kept, in increasing order. */
  function KeptPositions(data: seq<Question>): seq<nat> {
    if data == [] then []
    else KeptPositions(data[..|data| - 1]) + (if Kept(data[|data| - 1]) then [|data| - 1] else [])
  }

  /** The kept positions are in range, increasing, and name exactly the questions with text and options. */
  lemma {:induction false} KeptPositionsAreKept(data: seq<Question>)
    ensures forall k :: 0 <= k < |KeptPositions(data)| ==> KeptPositions(data)[k] < |data| && Kept(data[KeptPositions(data)[k]])
    ensures forall k, l :: 0 <= k < l < |KeptPositions(data)| ==> KeptPositions(data)[k] < KeptPositions(data)[l]
    ensures forall i :: 0 <= i < |data| && Kept(data[i]) ==> i in KeptPositions(data)
  {
    if data != [] {
      var prefix := data[..|data| - 1];
      var last := |data| - 1;
      KeptPositionsAreKept(prefix);
      assert forall i :: 0 <= i < |prefix| ==> prefix[i] == data[i];
      if Kept(data[last]) {
        assert KeptPositions(data) == KeptPositions(prefix) + [last];
      } else {
        assert KeptPositions(data) == KeptPositions(prefix);
      }
    }
  }

  /**
   * The clean-up is an order-preserving selection: the i-th output is the
   * normalised question at the i-th kept position, the positions increase,
   * and every question with text and options is selected.
   */
  lemma {:induction false} CleanedIsSelection(data: seq<Question>)
    ensures |Cleaned(data)| == |KeptPositions(data)|
    ensures forall k :: 0 <= k < |KeptPositions(data)| ==>
      KeptPositions(data)[k] < |data| && Kept(data[KeptPositions(data)[k]]) &&
      Cleaned(data)[k] == Normalize(data[KeptPositions(data)[k]])
    ensures forall k, l :: 0 <= k < l < |KeptPositions(data)| ==> KeptPositions(data)[k] < KeptPositions(data)[l]
    ensures forall i :: 0 <= i < |data| && Kept(data[i]) ==> i in KeptPositions(data)
  {
    KeptPositionsAreKept(data);
    if data != [] {
      var prefix := data[..|data| - 1];
      var last := |data| - 1;
      CleanedIsSelection(prefix);
      KeptPositionsAreKept(prefix);
      assert forall i :: 0 <= i < |prefix| ==> prefix[i] == data[i];
      if Kept(data[last]) {
        assert KeptPositions(data) == KeptPositions(prefix) + [last];
        assert Cleaned(data) == Cleaned(prefix) + [Normalize(data[last])];
      } else {
        assert KeptPositions(data) == KeptPositions(prefix);
        assert Cleaned(data) == Cleaned(prefix);
      }
    }
  }

  /** Every question that leaves the clean-up has text, options, and sorted distinct correct letters. */
  lemma {:induction false} CleanedQuestionsValid(data: seq<Question>)
    ensures forall q :: q in Cleaned(data) ==> Kept(q) && StrictlySorted(q.correct)
    ensures (forall q :: q in data ==> WellFormed(q)) ==> forall q :: q in Cleaned(data) ==> WellFormed(q)
  {
    if data != [] {
      var prefix := data[..|data| - 1];
      CleanedQuestionsValid(prefix);
      assert forall q :: q in prefix ==> q in data;
    }
  }

  /**
   * The saved question list meets the data model: every question has
   * text and at least one option, its correct letters are sorted, distinct
   * and all among its option letters, and the option letters are distinct.
   */
  lemma ExtractedQuestionsValid(es: seq<Event>)
    ensures forall q :: q in Cleaned(Parse(es)) ==>
      q.text != [] && q.options != [] && StrictlySorted(q.correct) && WellFormed(q)
  {
    ParseWellFormed(es);
    CleanedQuestionsValid(Parse(es));
  }

  /** The clean-up loop of the extractor's entry point. */
  method CleanUp(data: seq<Question>) returns (final: seq<Question>)
    ensures final == Cleaned(data)
    ensures forall q :: q in final ==> Kept(q) && StrictlySorted(q.correct)
  {
    final := [];
    for i := 0 to |data|
      invariant final == Cleaned(data[..i])
    {
      assert data[..i + 1][..i] == data[..i];
      var q := data[i].(correct := SortedSet(data[i].correct));
      if q.text != [] && q.options != [] {
        final := final + [q];
      }
    }
    assert data[..|data|] == data;
    CleanedQuestionsValid(data);
  }
}
