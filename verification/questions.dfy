/**
 * The question record the extractor produces and the quiz consumes:
 * an id, the question text, the options as an insertion-ordered mapping
 * from a letter to its text, and the list of letters marked correct.
 */
module Questions {
  import opened Wrappers

  /** One option of a question: its letter and its text. */
  datatype Choice = Choice(key: char, text: string)

  /**
   * A question record. `options` keeps the insertion order of a Python
   * dictionary: assigning to an existing letter keeps its position.
   */
  datatype Question = Question(id: nat, text: string, options: seq<Choice>, correct: seq<char>)

  /** The option letters, in insertion order. */
  function Keys(options: seq<Choice>): (ks: seq<char>)
    ensures |ks| == |options|
    ensures forall i :: 0 <= i < |options| ==> ks[i] == options[i].key
  {
    if options == [] then [] else [options[0].key] + Keys(options[1..])
  }

  predicate Distinct(ks: seq<char>) {
    forall i, j :: 0 <= i < j < |ks| ==> ks[i] != ks[j]
  }

  /** The text stored under letter `k`, as a dictionary lookup. */
  function Lookup(options: seq<Choice>, k: char): (r: Option<string>)
    ensures r.Some? <==> k in Keys(options)
  {
    if options == [] then None
    else if options[0].key == k then Some(options[0].text)
    else Lookup(options[1..], k)
  }

  /** Every letter of `options` replaced in place where it equals `k`. */
  function Replace(options: seq<Choice>, k: char, t: string): (r: seq<Choice>)
    ensures Keys(r) == Keys(options)
    ensures k in Keys(options) ==> Lookup(r, k) == Some(t)
    ensures forall k' :: k' != k ==> Lookup(r, k') == Lookup(options, k')
  {
    if options == [] then []
    else
      var rest := Replace(options[1..], k, t);
      var head := if options[0].key == k then Choice(k, t) else options[0];
      assert ([head] + rest)[1..] == rest;
      [head] + rest
  }

  lemma {:induction false} LookupAppendNew(options: seq<Choice>, k: char, t: string, k': char)
    requires k !in Keys(options)
    ensures Lookup(options + [Choice(k, t)], k') == if k' == k then Some(t) else Lookup(options, k')
  {
    if options != [] {
      assert (options + [Choice(k, t)])[1..] == options[1..] + [Choice(k, t)];
      LookupAppendNew(options[1..], k, t, k');
    }
  }

  /**
   * Dictionary assignment `options[k] = t`: afterwards `k` maps to `t`,
   * every other letter keeps its text, and a new letter is added at the
   * end while an existing one keeps its position.
   */
  function Put(options: seq<Choice>, k: char, t: string): (r: seq<Choice>)
    ensures Keys(r) == if k in Keys(options) then Keys(options) else Keys(options) + [k]
    ensures Lookup(r, k) == Some(t)
    ensures forall k' :: k' != k ==> Lookup(r, k') == Lookup(options, k')
    ensures Distinct(Keys(options)) ==> Distinct(Keys(r))
  {
    if k in Keys(options) then Replace(options, k, t)
    else
      var r := options + [Choice(k, t)];
      assert Keys(r) == Keys(options) + [k];
      forall k' ensures Lookup(r, k') == if k' == k then Some(t) else Lookup(options, k') {
        LookupAppendNew(options, k, t, k');
      }
      r
  }

  /** A letter not yet present is added after every existing option, as a dictionary keeps insertion order. */
  lemma PutNewKeyAppends(options: seq<Choice>, k: char, t: string)
    requires k !in Keys(options)
    ensures Put(options, k, t) == options + [Choice(k, t)]
  {
  }

  /**
   * `options[last] += suffix` for the most recently inserted letter: the
   * letters are unchanged and only the last option's text grows.
   */
  function AppendToLast(options: seq<Choice>, suffix: string): (r: seq<Choice>)
    requires options != []
    ensures Keys(r) == Keys(options)
    ensures r[|r| - 1] == Choice(options[|options| - 1].key, options[|options| - 1].text + suffix)
    ensures r[..|r| - 1] == options[..|options| - 1]
  {
    var n := |options|;
    options[..n - 1] + [Choice(options[n - 1].key, options[n - 1].text + suffix)]
  }

  /** Every letter marked correct names an option, and no letter appears twice among the options. */
  predicate WellFormed(q: Question) {
    Distinct(Keys(q.options)) && forall c :: c in q.correct ==> c in Keys(q.options)
  }

  /** The ids of a list of questions, in order. */
  function Ids(qs: seq<Question>): (ids: seq<nat>)
    ensures |ids| == |qs|
    ensures forall i :: 0 <= i < |qs| ==> ids[i] == qs[i].id
  {
    if qs == [] then [] else Ids(qs[..|qs| - 1]) + [qs[|qs| - 1].id]
  }
}
