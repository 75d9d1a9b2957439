/**
 * The question extractor: a state machine run over the reconstructed
 * lines of every page in document order. A header line finalises the
 * question in progress and opens a new record; an option line records an
 * option and marks it correct when the line box meets a highlight; any
 * other line continues the question text or, once options exist, the
 * most recently inserted option.
 */
module Parser {
  import opened Wrappers
  import opened Geometry
  import opened Colors
  import opened Text
  import opened Lines
  import opened Questions

  /** A page as the PDF layer delivers it: its drawn rectangles and its words. */
  datatype Page = Page(rects: seq<PageRect>, words: seq<Word>)

  /** What the state machine sees of a line: its text and whether its box meets a highlight of its page. */
  datatype Event = Event(text: string, hit: bool)

  /** The extractor's state: the finished questions and the question in progress, if any. */
  datatype ParserState = ParserState(done: seq<Question>, current: Option<Question>)

  const Start := ParserState([], None)

  /** The questions the extractor returns from a state: the finished ones and the one in progress. */
  function Finish(st: ParserState): seq<Question> {
    st.done + (if st.current.Some? then [st.current.value] else [])
  }

  /**
   * The state machine's transition for one line. Finished questions are
   * never changed or dropped, and the questions the state stands for gain
   * one entry, carrying the line's id, exactly when the line is a header.
   */
  function Step(st: ParserState, e: Event): (r: ParserState)
    ensures st.done <= r.done
    ensures Ids(Finish(r)) == Ids(Finish(st)) + (if Classify(e.text).HeaderLine? then [Classify(e.text).id] else [])
  {
    match Classify(e.text)
    case HeaderLine(id, t) =>
      ParserState(Finish(st), Some(Question(id, t, [], [])))
    case OptionLine(k, t) =>
      if st.current.None? then st
      else
        var q := st.current.value;
        ParserState(st.done, Some(q.(options := Put(q.options, k, t),
                                     correct := if e.hit then q.correct + [k] else q.correct)))
    case PlainLine =>
      if st.current.None? then st
      else
        var q := st.current.value;
        if q.options == [] then ParserState(st.done, Some(q.(text := q.text + " " + e.text)))
        else
          var last := q.options[|q.options| - 1].key;
          ParserState(st.done, Some(q.(options := AppendToLast(q.options, " " + e.text),
                                       correct := if last !in q.correct && e.hit then q.correct + [last] else q.correct)))
  }

  /** The state after feeding `es` to the machine, starting from `st`. */
  function RunFrom(st: ParserState, es: seq<Event>): ParserState {
    if es == [] then st else Step(RunFrom(st, es[..|es| - 1]), es[|es| - 1])
  }

  /** The questions extracted from a whole document's lines. */
  function Parse(es: seq<Event>): seq<Question> {
    Finish(RunFrom(Start, es))
  }

  /** The ids of the header lines among `es`, in document order. */
  function HeaderIds(es: seq<Event>): seq<nat> {
    if es == [] then []
    else
      var k := Classify(es[|es| - 1].text);
      HeaderIds(es[..|es| - 1]) + (if k.HeaderLine? then [k.id] else [])
  }

  /** The line event of one reconstructed line of a page with highlights `hs`. */
  ghost function LineEvent(line: seq<Word>, hs: seq<Box>): Event
    requires line != []
  {
    Event(LineText(line), HitsAny(LineBox(line), hs))
  }

  ghost function LineEvents(lines: seq<seq<Word>>, hs: seq<Box>): seq<Event>
    requires NonEmptyLines(lines)
  {
    if lines == [] then []
    else LineEvents(lines[..|lines| - 1], hs) + [LineEvent(lines[|lines| - 1], hs)]
  }

  /** The line events of one page: its words grouped into lines, each line box checked against the page's highlights. */
  ghost function PageEvents(p: Page): seq<Event> {
    GroupIsValid(p.words);
    LineEvents(Group(p.words), HighlightBoxes(p.rects))
  }

  /** The line events of a document, page after page. */
  ghost function Events(pages: seq<Page>): seq<Event> {
    if pages == [] then [] else Events(pages[..|pages| - 1]) + PageEvents(pages[|pages| - 1])
  }

  lemma RunFromSnoc(st: ParserState, es: seq<Event>, e: Event)
    ensures RunFrom(st, es + [e]) == Step(RunFrom(st, es), e)
  {
    assert (es + [e])[..|es|] == es;
  }

  lemma LineEventsSnoc(lines: seq<seq<Word>>, i: nat, hs: seq<Box>)
    requires NonEmptyLines(lines) && i < |lines|
    ensures NonEmptyLines(lines[..i]) && NonEmptyLines(lines[..i + 1])
    ensures LineEvents(lines[..i + 1], hs) == LineEvents(lines[..i], hs) + [LineEvent(lines[i], hs)]
  {
    assert lines[..i + 1][..i] == lines[..i];
  }

  lemma {:induction false} RunFromAppend(st: ParserState, a: seq<Event>, b: seq<Event>)
    ensures RunFrom(st, a + b) == RunFrom(RunFrom(st, a), b)
  {
    if b == [] {
      assert a + b == a;
    } else {
      assert (a + b)[..|a + b| - 1] == a + b[..|b| - 1];
      RunFromAppend(st, a, b[..|b| - 1]);
    }
  }

  /**
   * Every header line yields exactly one question, in document order:
   * the extracted ids are the header ids, so there are as many questions
   * as header lines.
   */
  lemma {:induction false} ParseFollowsHeaders(es: seq<Event>)
    ensures Ids(Parse(es)) == HeaderIds(es)
    ensures |Parse(es)| == |HeaderIds(es)|
  {
    if es != [] {
      var prefix := es[..|es| - 1];
      var e := es[|es| - 1];
      ParseFollowsHeaders(prefix);
      var st := RunFrom(Start, prefix);
      if Classify(e.text).HeaderLine? {
        assert Parse(es) == Finish(st) + [Question(Classify(e.text).id, Classify(e.text).text, [], [])];
      } else {
        assert Ids(Parse(es)) == Ids(Finish(st));
      }
    }
  }

  /** All questions of a state are well formed. */
  ghost predicate StateWellFormed(st: ParserState) {
    (forall q :: q in st.done ==> WellFormed(q)) && (st.current.Some? ==> WellFormed(st.current.value))
  }

  /** One transition keeps every question well formed. */
  lemma StepWellFormed(st: ParserState, e: Event)
    requires StateWellFormed(st)
    ensures StateWellFormed(Step(st, e))
  {
    match Classify(e.text)
    case HeaderLine(_, _) =>
    case OptionLine(k, t) =>
      if st.current.Some? {
        var q := st.current.value;
        assert k in Keys(Put(q.options, k, t));
      }
    case PlainLine =>
  }

  lemma {:induction false} RunWellFormed(es: seq<Event>)
    ensures StateWellFormed(RunFrom(Start, es))
  {
    if es != [] {
      RunWellFormed(es[..|es| - 1]);
      StepWellFormed(RunFrom(Start, es[..|es| - 1]), es[|es| - 1]);
    }
  }

  /**
   * Every extracted question is well formed: each letter in its correct
   * answers is one of its option letters, and no letter is repeated
   * among its options.
   */
  lemma ParseWellFormed(es: seq<Event>)
    ensures forall q :: q in Parse(es) ==> WellFormed(q)
  {
    RunWellFormed(es);
  }

  /** Before the first header there is no question in progress, and option or continuation lines change nothing. */
  lemma {:induction false} NoHeaderNoChange(es: seq<Event>)
    requires HeaderIds(es) == []
    ensures RunFrom(Start, es) == Start
  {
    if es != [] {
      assert HeaderIds(es[..|es| - 1]) == [];
      NoHeaderNoChange(es[..|es| - 1]);
    }
  }

  /** Lines that come before every header are ignored. */
  lemma LinesBeforeFirstHeaderIgnored(pre: seq<Event>, rest: seq<Event>)
    requires HeaderIds(pre) == []
    ensures Parse(pre + rest) == Parse(rest)
  {
    NoHeaderNoChange(pre);
    RunFromAppend(Start, pre, rest);
  }

  /** A header line finalises the question in progress and opens a record with no options and no correct answers. */
  lemma HeaderOpensEmptyRecord(es: seq<Event>, e: Event)
    requires Classify(e.text).HeaderLine?
    ensures Parse(es + [e]) == Parse(es) + [Question(Classify(e.text).id, Classify(e.text).text, [], [])]
  {
    assert (es + [e])[..|es|] == es;
  }

  /** The questions after three lines, one step at a time. */
  lemma RunThree(e1: Event, e2: Event, e3: Event)
    ensures Parse([e1, e2, e3]) == Finish(Step(Step(Step(Start, e1), e2), e3))
  {
    assert [e1, e2, e3][..2] == [e1, e2];
    assert [e1, e2][..1] == [e1];
    assert [e1][..0] == [];
    assert RunFrom(Start, [e1]) == Step(Start, e1);
    assert RunFrom(Start, [e1, e2]) == Step(Step(Start, e1), e2);
  }

  lemma StepHeader(st: ParserState, e: Event, id: nat, t: string)
    requires Classify(e.text) == HeaderLine(id, t)
    ensures Step(st, e) == ParserState(Finish(st), Some(Question(id, t, [], [])))
  {
  }

  lemma StepOption(done: seq<Question>, q: Question, e: Event, k: char, t: string)
    requires Classify(e.text) == OptionLine(k, t)
    ensures Step(ParserState(done, Some(q)), e)
         == ParserState(done, Some(q.(options := Put(q.options, k, t), correct := if e.hit then q.correct + [k] else q.correct)))
  {
  }

  lemma StepPlain(done: seq<Question>, q: Question, e: Event)
    requires Classify(e.text).PlainLine?
    ensures q.options == [] ==> Step(ParserState(done, Some(q)), e) == ParserState(done, Some(q.(text := q.text + " " + e.text)))
    ensures q.options != [] ==>
      var last := q.options[|q.options| - 1].key;
      Step(ParserState(done, Some(q)), e)
        == ParserState(done, Some(q.(options := AppendToLast(q.options, " " + e.text),
                                     correct := if last !in q.correct && e.hit then q.correct + [last] else q.correct)))
  {
  }

  /** A header line written as a number, a full stop, a space and a text opens a record with that number and text. */
  lemma HeaderLineStep(st: ParserState, n: nat, q: string, hit: bool)
    requires Trimmed(q) && '\n' !in q
    ensures Step(st, Event(Decimal(n) + ". " + q, hit)) == ParserState(Finish(st), Some(Question(n, q, [], [])))
  {
    HeaderRoundTrip(n, q);
    StepHeader(st, Event(Decimal(n) + ". " + q, hit), n, q);
  }

  /** An option line with a new letter adds that option after the others, and marks it correct when the line is highlighted. */
  lemma NewOptionStep(done: seq<Question>, cur: Question, k: char, t: string, hit: bool)
    requires IsLower(k) && Trimmed(t) && '\n' !in t && k !in Keys(cur.options)
    ensures Step(ParserState(done, Some(cur)), Event([k, ')', ' '] + t, hit))
         == ParserState(done, Some(cur.(options := cur.options + [Choice(k, t)], correct := if hit then cur.correct + [k] else cur.correct)))
  {
    OptionRoundTrip(k, t);
    StepOption(done, cur, Event([k, ')', ' '] + t, hit), k, t);
    PutNewKeyAppends(cur.options, k, t);
  }

  /** A header line followed by one option line: a record holding that option, marked correct when it was highlighted. */
  lemma HeaderThenOption(n: nat, q: string, a: string, hit: bool)
    requires Trimmed(q) && '\n' !in q && Trimmed(a) && '\n' !in a
    ensures Step(Step(Start, Event(Decimal(n) + ". " + q, false)), Event(['a', ')', ' '] + a, hit))
         == ParserState([], Some(Question(n, q, [Choice('a', a)], if hit then ['a'] else [])))
  {
    var q1 := Question(n, q, [], []);
    HeaderLineStep(Start, n, q, false);
    NewOptionStep([], q1, 'a', a, hit);
    assert [] + [Choice('a', a)] == [Choice('a', a)];
    assert [] + ['a'] == ['a'];
  }

  /**
   * A continuation line after the options have started extends the last
   * option's text by a space and the line, leaves the letters and the
   * question id and text and the earlier options alone, and makes the last
   * letter correct exactly when it already was or the line is highlighted.
   * The letter is added only when it is not already marked, so it is never
   * marked twice, and every other letter keeps its status.
   */
  lemma ContinuationExtendsLastOption(done: seq<Question>, cur: Question, e: Event)
    requires Classify(e.text).PlainLine? && cur.options != []
    ensures var st := Step(ParserState(done, Some(cur)), e);
      var last := cur.options[|cur.options| - 1];
      && st.done == done && st.current.Some?
      && st.current.value.id == cur.id && st.current.value.text == cur.text
      && Keys(st.current.value.options) == Keys(cur.options)
      && |st.current.value.options| == |cur.options|
      && st.current.value.options[..|cur.options| - 1] == cur.options[..|cur.options| - 1]
      && st.current.value.options[|cur.options| - 1] == Choice(last.key, last.text + " " + e.text)
      && (last.key in st.current.value.correct <==> last.key in cur.correct || e.hit)
      && multiset(st.current.value.correct)
         == multiset(cur.correct) + (if last.key !in cur.correct && e.hit then multiset{last.key} else multiset{})
  {
    StepPlain(done, cur, e);
  }

  /** A plain line between a header and the first option continues the question text, joined by one space. */
  lemma ContinuationExtendsQuestion(n: nat, q: string, c: string, x: string)
    requires Trimmed(q) && '\n' !in q && Trimmed(x) && '\n' !in x && Classify(c).PlainLine?
    ensures Parse([Event(Decimal(n) + ". " + q, false), Event(c, false), Event(['a', ')', ' '] + x, false)])
         == [Question(n, q + " " + c, [Choice('a', x)], [])]
  {
    var e1, e2, e3 := Event(Decimal(n) + ". " + q, false), Event(c, false), Event(['a', ')', ' '] + x, false);
    var q1 := Question(n, q, [], []);
    HeaderLineStep(Start, n, q, false);
    StepPlain([], q1, e2);
    var q2 := q1.(text := q + " " + c);
    NewOptionStep([], q2, 'a', x, false);
    assert [] + [Choice('a', x)] == [Choice('a', x)];
    RunThree(e1, e2, e3);
  }

  /**
   * The body of the extractor's line loop: classify the line's text and
   * update the question in progress, testing the line box against the
   * page's highlights for option lines and, unless the last option is
   * already marked correct, for continuation lines.
   */
  method FeedLine(questions: seq<Question>, current: Option<Question>, line: seq<Word>, highlights: seq<Box>)
    returns (questions': seq<Question>, current': Option<Question>)
    requires line != []
    ensures ParserState(questions', current') == Step(ParserState(questions, current), LineEvent(line, highlights))
  {
    questions', current' := questions, current;
    var lineText := LineText(line);
    var box := LineBox(line);
    ghost var e := LineEvent(line, highlights);
    assert e.text == lineText;
    match Classify(lineText) {
      case HeaderLine(id, t) =>
        StepHeader(ParserState(questions, current), e, id, t);
        if current'.Some? {
          questions' := questions' + [current'.value];
        }
        current' := Some(Question(id, t, [], []));
      case OptionLine(k, t) =>
        if current'.Some? {
          StepOption(questions, current.value, e, k, t);
          var q := current'.value;
          q := q.(options := Put(q.options, k, t));
          var isCorrect := FindOverlap(box, highlights);
          if isCorrect {
            q := q.(correct := q.correct + [k]);
          }
          current' := Some(q);
        }
      case PlainLine =>
        if current'.Some? {
          StepPlain(questions, current.value, e);
          var q := current'.value;
          if q.options == [] {
            current' := Some(q.(text := q.text + " " + lineText));
          } else {
            var lastKey := q.options[|q.options| - 1].key;
            q := q.(options := AppendToLast(q.options, " " + lineText));
            if lastKey !in q.correct {
              var hit := FindOverlap(box, highlights);
              if hit {
                q := q.(correct := q.correct + [lastKey]);
              }
            }
            current' := Some(q);
          }
        }
    }
  }

  /**
   * One page of the extractor's main loop: collect the page's highlight
   * rectangles, skip the page if it has no words, otherwise group the
   * words into lines and feed each line to the state machine.
   */
  method FeedPage(questions: seq<Question>, current: Option<Question>, page: Page)
    returns (questions': seq<Question>, current': Option<Question>)
    ensures ParserState(questions', current') == RunFrom(ParserState(questions, current), PageEvents(page))
  {
    questions', current' := questions, current;
    var highlights := CollectHighlights(page.rects);
    var words := page.words;
    if words == [] {
      return;
    }
    var lines := GroupWords(words);
    assert NonEmptyLines(lines);
    ghost var start := ParserState(questions, current);
    for i := 0 to |lines|
      invariant NonEmptyLines(lines[..i])
      invariant ParserState(questions', current') == RunFrom(start, LineEvents(lines[..i], highlights))
    {
      LineEventsSnoc(lines, i, highlights);
      RunFromSnoc(start, LineEvents(lines[..i], highlights), LineEvent(lines[i], highlights));
      questions', current' := FeedLine(questions', current', lines[i], highlights);
    }
    assert lines[..|lines|] == lines;
    assert PageEvents(page) == LineEvents(lines, highlights);
  }

  /**
   * The extractor's main loop over the pages in document order; the
   * question still in progress at the end is appended.
   */
  method ExtractQuestions(pages: seq<Page>) returns (questions: seq<Question>)
    ensures questions == Parse(Events(pages))
    ensures Ids(questions) == HeaderIds(Events(pages))
    ensures forall q :: q in questions ==> WellFormed(q)
  {
    questions := [];
    var current: Option<Question> := None;
    for p := 0 to |pages|
      invariant ParserState(questions, current) == RunFrom(Start, Events(pages[..p]))
    {
      assert pages[..p + 1][..p] == pages[..p];
      RunFromAppend(Start, Events(pages[..p]), PageEvents(pages[p]));
      questions, current := FeedPage(questions, current, pages[p]);
    }
    assert pages[..|pages|] == pages;
    if current.Some? {
      questions := questions + [current.value];
    }
    ParseFollowsHeaders(Events(pages));
    ParseWellFormed(Events(pages));
  }
}
