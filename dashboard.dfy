// The dashboard pass: one walk over the whole syllabus that counts
// subtopics, theory read, subtopics with questions and questions solved,
// and sorts every topic into finished, started or untouched.
module Dashboard {
  import opened ProgressData

  /** Subject -> topic -> subtopics, in the order the dictionaries iterate. */
  type Syllabus = seq<(string, seq<(string, seq<string>)>)>

  /** One topic of the syllabus, with the subject it belongs to. */
  datatype TopicEntry = TopicEntry(subject: string, topic: string, subs: seq<string>)

  /** The topics of one subject, in order. */
  function TopicsOf(subject: string, topics: seq<(string, seq<string>)>): (es: seq<TopicEntry>)
    ensures |es| == |topics|
    ensures forall i :: 0 <= i < |topics| ==> es[i] == TopicEntry(subject, topics[i].0, topics[i].1)
  {
    if topics == [] then []
    else
      var init := topics[..|topics| - 1];
      var (name, subs) := topics[|topics| - 1];
      assert forall i :: 0 <= i < |init| ==> init[i] == topics[i];
      TopicsOf(subject, init) + [TopicEntry(subject, name, subs)]
  }

  /** Every topic of the syllabus, subject by subject, in iteration order. */
  function Flatten(syllabus: Syllabus): seq<TopicEntry>
  {
    if syllabus == [] then []
    else
      var (subject, topics) := syllabus[|syllabus| - 1];
      Flatten(syllabus[..|syllabus| - 1]) + TopicsOf(subject, topics)
  }

  /** The keys of every subtopic of one subject, in order. */
  function TopicKeys(subject: string, topics: seq<(string, seq<string>)>): seq<string>
  {
    if topics == [] then []
    else
      var (name, subs) := topics[|topics| - 1];
      TopicKeys(subject, topics[..|topics| - 1]) + Keys(subject, name, subs)
  }

  /** The keys of every subtopic of the syllabus, in iteration order. */
  function SubtopicKeys(syllabus: Syllabus): seq<string>
  {
    if syllabus == [] then []
    else
      var (subject, topics) := syllabus[|syllabus| - 1];
      SubtopicKeys(syllabus[..|syllabus| - 1]) + TopicKeys(subject, topics)
  }

  /** The sum of the lengths of the subtopic lists of one subject. */
  function SubjectSize(topics: seq<(string, seq<string>)>): nat
  {
    if topics == [] then 0 else |topics[0].1| + SubjectSize(topics[1..])
  }

  /** The sum of the lengths of all subtopic lists of the syllabus. */
  function SubtopicCount(syllabus: Syllabus): nat
  {
    if syllabus == [] then 0 else SubjectSize(syllabus[0].1) + SubtopicCount(syllabus[1..])
  }

  /** The dashboard's counters over a run of topics, topic by topic. */
  function Totals(p: Progress, topics: seq<TopicEntry>): Tally
  {
    if topics == [] then NoTally
    else
      var e := topics[|topics| - 1];
      Plus(Totals(p, topics[..|topics| - 1]), TopicTally(p, e.subject, e.topic, e.subs))
  }

  /** Whether some subtopic of the topic has its theory read. */
  function AnyTheory(p: Progress, subject: string, topic: string, subs: seq<string>): (b: bool)
    ensures b <==> SomeHas(p, subject, topic, subs, Theory)
  {
    if subs == [] then false
    else if Has(SubRecord(p, subject, topic, subs[0]), Theory) then true
    else
      var b := AnyTheory(p, subject, topic, subs[1..]);
      assert forall i :: 1 <= i < |subs| ==> subs[i] == subs[1..][i - 1];
      b
  }

  datatype Status = Finished | Started | Untouched

  /** Where the dashboard lists a topic: finished when every subtopic is
      complete, started when some subtopic is complete or has its theory
      read, untouched otherwise. */
  function Classify(p: Progress, e: TopicEntry): (s: Status)
    ensures var concluded := TopicTally(p, e.subject, e.topic, e.subs).complete;
            && (s == Finished <==> concluded == |e.subs|)
            && (s == Started <==> concluded < |e.subs| && (concluded > 0 || AnyTheory(p, e.subject, e.topic, e.subs)))
            && (s == Untouched <==> 0 == concluded < |e.subs| && !AnyTheory(p, e.subject, e.topic, e.subs))
  {
    MarkedAll(p, e.subject, e.topic, e.subs, Complete);
    StatusOf(TopicTally(p, e.subject, e.topic, e.subs).complete, |e.subs|, AnyTheory(p, e.subject, e.topic, e.subs))
  }

  /** The status of a topic with `concluded` complete subtopics out of
      `total`, given whether some subtopic has its theory read. */
  function StatusOf(concluded: nat, total: nat, anyTheory: bool): (s: Status)
    ensures s == Finished <==> concluded == total
    ensures s == Started <==> concluded != total && (concluded > 0 || anyTheory)
    ensures s == Untouched <==> concluded != total && concluded == 0 && !anyTheory
  {
    if concluded == total then Finished
    else if concluded > 0 || anyTheory then Started
    else Untouched
  }

  /** The text of a list entry, kept abstract: finished and untouched topics
      show their name and subject, started topics also show how many of
      their subtopics are complete out of how many. */
  datatype Label =
    | Plain(topic: string, subject: string)
    | WithProgress(topic: string, subject: string, concluded: nat, total: nat)

  function LabelOf(p: Progress, e: TopicEntry): (l: Label)
    ensures l.topic == e.topic && l.subject == e.subject
    ensures l.WithProgress? <==> Classify(p, e) == Started
    ensures l.WithProgress? ==> l.concluded < l.total == |e.subs|
  {
    MarkedAll(p, e.subject, e.topic, e.subs, Complete);
    LabelFor(e.topic, e.subject, TopicTally(p, e.subject, e.topic, e.subs).complete, |e.subs|,
             AnyTheory(p, e.subject, e.topic, e.subs))
  }

  /** The label the three-way branch appends: with the progress count
      exactly when the topic goes to the started list. */
  function LabelFor(topic: string, subject: string, concluded: nat, total: nat, anyTheory: bool): (l: Label)
    ensures l.topic == topic && l.subject == subject
    ensures l.WithProgress? <==> StatusOf(concluded, total, anyTheory) == Started
    ensures l.WithProgress? ==> l.concluded == concluded && l.total == total
  {
    if StatusOf(concluded, total, anyTheory) == Started
    then WithProgress(topic, subject, concluded, total)
    else Plain(topic, subject)
  }

  /** Each topic's status and label, in the order of the topics. */
  function Tagged(p: Progress, topics: seq<TopicEntry>): (ts: seq<(Status, Label)>)
    ensures |ts| == |topics|
    ensures forall i :: 0 <= i < |topics| ==> ts[i] == (Classify(p, topics[i]), LabelOf(p, topics[i]))
  {
    seq(|topics|, i requires 0 <= i < |topics| => (Classify(p, topics[i]), LabelOf(p, topics[i])))
  }

  /** The labels tagged with status s, in order. */
  function Select(ts: seq<(Status, Label)>, s: Status): seq<Label>
  {
    if ts == [] then []
    else Select(ts[..|ts| - 1], s) + (if ts[|ts| - 1].0 == s then [ts[|ts| - 1].1] else [])
  }

  /** All labels, in order. */
  function Labels(ts: seq<(Status, Label)>): (ls: seq<Label>)
    ensures |ls| == |ts|
    ensures forall i :: 0 <= i < |ts| ==> ls[i] == ts[i].1
  {
    seq(|ts|, i requires 0 <= i < |ts| => ts[i].1)
  }

  /** The labels of the topics with status s, in the order of the topics. */
  function Listed(p: Progress, topics: seq<TopicEntry>, s: Status): seq<Label>
  {
    Select(Tagged(p, topics), s)
  }

  /** The labels of all topics, in order. */
  function AllLabels(p: Progress, topics: seq<TopicEntry>): (ls: seq<Label>)
    ensures |ls| == |topics|
    ensures forall i :: 0 <= i < |topics| ==> ls[i] == LabelOf(p, topics[i])
  {
    seq(|topics|, i requires 0 <= i < |topics| => LabelOf(p, topics[i]))
  }

  /** Theory progress in percent, as an exact rational; 0 for an empty syllabus. */
  function PercTeoria(done: nat, total: nat): (r: real)
    ensures total == 0 ==> r == 0.0
    ensures total > 0 ==> r * (total as real) == (done as real) * 100.0
    ensures done <= total ==> 0.0 <= r <= 100.0
  {
    if total > 0 then (done as real) / (total as real) * 100.0 else 0.0
  }

  /** The running counters and lists of the dashboard pass. */
  datatype Board = Board(
    totalTopics: nat,               // subtopics seen
    doneTeoria: nat,                // of them, with theory read
    totalQuestoesResolvidas: nat,   // their question counts, summed
    topicsComQuestoes: nat,         // of them, with questions
    finalizadas: seq<Label>,
    emAndamento: seq<Label>,
    faltando: seq<Label>)

  /** The board after a run of topics, as the specification states it. */
  function BoardOf(p: Progress, topics: seq<TopicEntry>): Board
  {
    var t := Totals(p, topics);
    Board(t.subs, t.theory, t.questionCount, t.withQuestions,
          Listed(p, topics, Finished), Listed(p, topics, Started), Listed(p, topics, Untouched))
  }

  /** What the dashboard shows: the final board and the theory percentage. */
  datatype Summary = Summary(board: Board, percTeoria: real)

  /** The dashboard pass: every subject, in order. */
  method Summarize(syllabus: Syllabus, p: Progress) returns (d: Summary)
    ensures d.board.totalTopics == SubtopicCount(syllabus)
    ensures var t := KeyTally(p, SubtopicKeys(syllabus));
            && d.board.totalTopics == t.subs
            && d.board.doneTeoria == t.theory
            && d.board.totalQuestoesResolvidas == t.questionCount
            && d.board.topicsComQuestoes == t.withQuestions
    ensures d.board.doneTeoria <= d.board.totalTopics && d.board.topicsComQuestoes <= d.board.totalTopics
    ensures d.board.finalizadas == Listed(p, Flatten(syllabus), Finished)
    ensures d.board.emAndamento == Listed(p, Flatten(syllabus), Started)
    ensures d.board.faltando == Listed(p, Flatten(syllabus), Untouched)
    ensures d.percTeoria == PercTeoria(d.board.doneTeoria, d.board.totalTopics)
    ensures 0.0 <= d.percTeoria <= 100.0
  {
    var b := Board(0, 0, 0, 0, [], [], []);
    for i := 0 to |syllabus|
      invariant b == BoardOf(p, Flatten(syllabus[..i]))
    {
      var (subject, topics) := syllabus[i];
      assert syllabus[..i + 1][..i] == syllabus[..i];
      b := ScanSubject(p, subject, topics, Flatten(syllabus[..i]), b);
    }
    assert syllabus[..|syllabus|] == syllabus;
    NestedEqualsFlat(p, syllabus);
    SubtopicKeysCount(syllabus);
    TotalsBounded(p, Flatten(syllabus));
    d := Summary(b, PercTeoria(b.doneTeoria, b.totalTopics));
  }

  /** The walk over one subject's topics, in order. */
  method ScanSubject(p: Progress, subject: string, topics: seq<(string, seq<string>)>,
                     ghost seen: seq<TopicEntry>, b0: Board)
    returns (b: Board)
    requires b0 == BoardOf(p, seen)
    ensures b == BoardOf(p, seen + TopicsOf(subject, topics))
  {
    b := b0;
    assert topics[..0] == [] && seen + TopicsOf(subject, topics[..0]) == seen;
    for j := 0 to |topics|
      invariant b == BoardOf(p, seen + TopicsOf(subject, topics[..j]))
    {
      var (name, subs) := topics[j];
      ghost var before := seen + TopicsOf(subject, topics[..j]);
      SeenSnoc(seen, subject, topics, j);
      BoardSnoc(p, before, TopicEntry(subject, name, subs));
      b := ScanTopic(p, subject, name, subs, b);
    }
    assert topics[..|topics|] == topics;
  }

  /** One topic: its subtopics are counted, then the topic is filed as
      finished, started or untouched. */
  method ScanTopic(p: Progress, subject: string, name: string, subs: seq<string>, b0: Board)
    returns (b: Board)
    ensures b == TopicStep(p, b0, TopicEntry(subject, name, subs))
  {
    var counted, contSubConcluido := ScanSubtopics(p, subject, name, subs, b0);
    var anyTheory := AnyTheory(p, subject, name, subs);
    b := FileTopic(counted, name, subject, contSubConcluido, |subs|, anyTheory);
    FiledStep(p, TopicEntry(subject, name, subs), b0);
  }

  /** The board with a tally's subtopics added to its four counters. */
  function AddCounters(b: Board, t: Tally): Board
  {
    b.(totalTopics := b.totalTopics + t.subs, doneTeoria := b.doneTeoria + t.theory,
       totalQuestoesResolvidas := b.totalQuestoesResolvidas + t.questionCount,
       topicsComQuestoes := b.topicsComQuestoes + t.withQuestions)
  }

  /** Counting a topic's subtopics into the board and then filing it by
      its complete count and its theory test is the specification's step
      for that topic. */
  lemma FiledStep(p: Progress, e: TopicEntry, b0: Board)
    ensures var t := TopicTally(p, e.subject, e.topic, e.subs);
            var anyTheory := AnyTheory(p, e.subject, e.topic, e.subs);
            Step(AddCounters(b0, t), NoTally, StatusOf(t.complete, |e.subs|, anyTheory),
                 LabelFor(e.topic, e.subject, t.complete, |e.subs|, anyTheory))
            == TopicStep(p, b0, e)
  {
    StepCounters(b0, TopicTally(p, e.subject, e.topic, e.subs), Classify(p, e), LabelOf(p, e));
  }

  /** Filing a topic with `concluded` complete subtopics out of `total`. */
  method FileTopic(b0: Board, topic: string, subject: string, concluded: nat, total: nat, anyTheory: bool)
    returns (b: Board)
    ensures b == Step(b0, NoTally, StatusOf(concluded, total, anyTheory),
                      LabelFor(topic, subject, concluded, total, anyTheory))
  {
    b := b0;
    if concluded == total {
      b := b.(finalizadas := b.finalizadas + [Plain(topic, subject)]);
    } else if concluded > 0 || anyTheory {
      b := b.(emAndamento := b.emAndamento + [WithProgress(topic, subject, concluded, total)]);
    } else {
      b := b.(faltando := b.faltando + [Plain(topic, subject)]);
    }
  }

  /** Adding a tally's counters first and filing afterwards is one step. */
  lemma StepCounters(b0: Board, t: Tally, c: Status, l: Label)
    ensures Step(AddCounters(b0, t), NoTally, c, l) == Step(b0, t, c, l)
  {
  }

  /** The walk over one topic's subtopics: it adds each subtopic to the
      running counters and counts the topic's complete subtopics. */
  method ScanSubtopics(p: Progress, subject: string, name: string, subs: seq<string>, b0: Board)
    returns (b: Board, contSubConcluido: nat)
    ensures b == AddCounters(b0, TopicTally(p, subject, name, subs))
    ensures contSubConcluido == TopicTally(p, subject, name, subs).complete
  {
    var totalTopics, doneTeoria, totalQuestoes, topicsComQuestoes :=
      b0.totalTopics, b0.doneTeoria, b0.totalQuestoesResolvidas, b0.topicsComQuestoes;
    contSubConcluido := 0;
    for k := 0 to |subs|
      invariant totalTopics == b0.totalTopics + k
      invariant doneTeoria == b0.doneTeoria + TopicTally(p, subject, name, subs[..k]).theory
      invariant totalQuestoes == b0.totalQuestoesResolvidas + TopicTally(p, subject, name, subs[..k]).questionCount
      invariant topicsComQuestoes == b0.topicsComQuestoes + TopicTally(p, subject, name, subs[..k]).withQuestions
      invariant contSubConcluido == TopicTally(p, subject, name, subs[..k]).complete
    {
      assert subs[..k + 1][..k] == subs[..k];
      totalTopics := totalTopics + 1;
      var stData := RecordAt(p, Key(subject, name, subs[k]));
      if Has(stData, Complete) {
        contSubConcluido := contSubConcluido + 1;
      }
      if Has(stData, Theory) {
        doneTeoria := doneTeoria + 1;
      }
      var nQuestoes := Questions(stData);
      totalQuestoes := totalQuestoes + nQuestoes;
      if Has(stData, WithQuestions) {
        topicsComQuestoes := topicsComQuestoes + 1;
      }
    }
    assert subs[..|subs|] == subs;
    b := b0.(totalTopics := totalTopics, doneTeoria := doneTeoria,
             totalQuestoesResolvidas := totalQuestoes, topicsComQuestoes := topicsComQuestoes);
  }

  /** The board after one more topic with tally t, status c and label l:
      its subtopics are added to the counters and its label to the list
      that c names. */
  function Step(b: Board, t: Tally, c: Status, l: Label): Board
  {
    Board(b.totalTopics + t.subs, b.doneTeoria + t.theory,
          b.totalQuestoesResolvidas + t.questionCount, b.topicsComQuestoes + t.withQuestions,
          b.finalizadas + (if c == Finished then [l] else []),
          b.emAndamento + (if c == Started then [l] else []),
          b.faltando + (if c == Untouched then [l] else []))
  }

  /** The step of the specification for topic e: its tally, its status
      and its label. */
  function TopicStep(p: Progress, b: Board, e: TopicEntry): Board
  {
    Step(b, TopicTally(p, e.subject, e.topic, e.subs), Classify(p, e), LabelOf(p, e))
  }

  lemma BoardSnoc(p: Progress, topics: seq<TopicEntry>, e: TopicEntry)
    ensures BoardOf(p, topics + [e]) == TopicStep(p, BoardOf(p, topics), e)
  {
    TotalsSnoc(p, topics, e);
    ListedSnoc(p, topics, e);
  }

  lemma SeenSnoc(seen: seq<TopicEntry>, subject: string, topics: seq<(string, seq<string>)>, j: nat)
    requires j < |topics|
    ensures seen + TopicsOf(subject, topics[..j + 1])
         == (seen + TopicsOf(subject, topics[..j])) + [TopicEntry(subject, topics[j].0, topics[j].1)]
  {
    TopicsOfSnoc(subject, topics, j);
  }

  lemma TopicsOfSnoc(subject: string, topics: seq<(string, seq<string>)>, j: nat)
    requires j < |topics|
    ensures TopicsOf(subject, topics[..j + 1])
         == TopicsOf(subject, topics[..j]) + [TopicEntry(subject, topics[j].0, topics[j].1)]
  {
    assert topics[..j + 1][..j] == topics[..j];
  }

  lemma TotalsSnoc(p: Progress, topics: seq<TopicEntry>, e: TopicEntry)
    ensures Totals(p, topics + [e]) == Plus(Totals(p, topics), TopicTally(p, e.subject, e.topic, e.subs))
  {
    assert (topics + [e])[..|topics|] == topics;
  }

  lemma TaggedSnoc(p: Progress, topics: seq<TopicEntry>, e: TopicEntry)
    ensures Tagged(p, topics + [e]) == Tagged(p, topics) + [(Classify(p, e), LabelOf(p, e))]
  {
  }

  lemma SelectSnoc(ts: seq<(Status, Label)>, t: (Status, Label), s: Status)
    ensures Select(ts + [t], s) == Select(ts, s) + (if t.0 == s then [t.1] else [])
  {
    assert (ts + [t])[..|ts|] == ts;
  }

  lemma ListedSnoc(p: Progress, topics: seq<TopicEntry>, e: TopicEntry)
    ensures forall s :: Listed(p, topics + [e], s)
                     == Listed(p, topics, s) + (if Classify(p, e) == s then [LabelOf(p, e)] else [])
  {
    TaggedSnoc(p, topics, e);
    forall s {
      SelectSnoc(Tagged(p, topics), (Classify(p, e), LabelOf(p, e)), s);
    }
  }

  /** The dashboard's counters never exceed the number of subtopics. */
  lemma {:induction false} TotalsBounded(p: Progress, topics: seq<TopicEntry>)
    ensures Bounded(Totals(p, topics))
  {
    if topics != [] {
      var e := topics[|topics| - 1];
      TotalsBounded(p, topics[..|topics| - 1]);
      TopicTallyBounded(p, e.subject, e.topic, e.subs);
    }
  }

  lemma PlusAssoc(a: Tally, b: Tally, c: Tally)
    ensures Plus(Plus(a, b), c) == Plus(a, Plus(b, c))
  {
  }

  /** Counting two runs of topics one after the other adds their counters. */
  lemma {:induction false} TotalsAppend(p: Progress, a: seq<TopicEntry>, b: seq<TopicEntry>)
    ensures Totals(p, a + b) == Plus(Totals(p, a), Totals(p, b))
  {
    if b == [] {
      assert a + b == a;
      PlusNone(Totals(p, a));
    } else {
      var init, e := b[..|b| - 1], b[|b| - 1];
      SplitLast(a, b);
      var t := TopicTally(p, e.subject, e.topic, e.subs);
      calc {
        Totals(p, a + b);
      == { TotalsSnoc(p, a + init, e); }
        Plus(Totals(p, a + init), t);
      == { TotalsAppend(p, a, init); }
        Plus(Plus(Totals(p, a), Totals(p, init)), t);
      == { PlusAssoc(Totals(p, a), Totals(p, init), t); }
        Plus(Totals(p, a), Plus(Totals(p, init), t));
      == { TotalsSnoc(p, init, e); }
        Plus(Totals(p, a), Totals(p, b));
      }
    }
  }

  /** The counters of one subject, topic by topic, are the tally of its
      subtopic keys. */
  lemma {:induction false} SubjectTotals(p: Progress, subject: string, topics: seq<(string, seq<string>)>)
    ensures Totals(p, TopicsOf(subject, topics)) == KeyTally(p, TopicKeys(subject, topics))
  {
    if topics != [] {
      var init := topics[..|topics| - 1];
      var (name, subs) := topics[|topics| - 1];
      var e := TopicEntry(subject, name, subs);
      SubjectTotals(p, subject, init);
      TotalsSnoc(p, TopicsOf(subject, init), e);
      TopicTallyIsKeyTally(p, subject, name, subs);
      KeyTallyAppend(p, TopicKeys(subject, init), Keys(subject, name, subs));
    }
  }

  /** The nested walk (subject, topic, subtopic) counts exactly what one
      pass over every subtopic key of the syllabus, in order, counts. */
  lemma {:induction false} NestedEqualsFlat(p: Progress, syllabus: Syllabus)
    ensures Totals(p, Flatten(syllabus)) == KeyTally(p, SubtopicKeys(syllabus))
  {
    if syllabus != [] {
      var init := syllabus[..|syllabus| - 1];
      var (subject, topics) := syllabus[|syllabus| - 1];
      NestedEqualsFlat(p, init);
      TotalsAppend(p, Flatten(init), TopicsOf(subject, topics));
      SubjectTotals(p, subject, topics);
      KeyTallyAppend(p, SubtopicKeys(init), TopicKeys(subject, topics));
    }
  }

  lemma {:induction false} SubjectSizeSnoc(topics: seq<(string, seq<string>)>, t: (string, seq<string>))
    ensures SubjectSize(topics + [t]) == SubjectSize(topics) + |t.1|
  {
    if topics != [] {
      assert (topics + [t])[1..] == topics[1..] + [t];
      SubjectSizeSnoc(topics[1..], t);
    }
  }

  lemma {:induction false} SubtopicCountSnoc(syllabus: Syllabus, s: (string, seq<(string, seq<string>)>))
    ensures SubtopicCount(syllabus + [s]) == SubtopicCount(syllabus) + SubjectSize(s.1)
  {
    if syllabus != [] {
      assert (syllabus + [s])[1..] == syllabus[1..] + [s];
      SubtopicCountSnoc(syllabus[1..], s);
    }
  }

  lemma {:induction false} TopicKeysCount(subject: string, topics: seq<(string, seq<string>)>)
    ensures |TopicKeys(subject, topics)| == SubjectSize(topics)
  {
    if topics != [] {
      var init := topics[..|topics| - 1];
      TopicKeysCount(subject, init);
      assert topics == init + [topics[|topics| - 1]];
      SubjectSizeSnoc(init, topics[|topics| - 1]);
    }
  }

  /** There is one subtopic key per entry of every subtopic list. */
  lemma {:induction false} SubtopicKeysCount(syllabus: Syllabus)
    ensures |SubtopicKeys(syllabus)| == SubtopicCount(syllabus)
  {
    if syllabus != [] {
      var init := syllabus[..|syllabus| - 1];
      SubtopicKeysCount(init);
      assert syllabus == init + [syllabus[|syllabus| - 1]];
      SubtopicCountSnoc(init, syllabus[|syllabus| - 1]);
      TopicKeysCount(syllabus[|syllabus| - 1].0, syllabus[|syllabus| - 1].1);
    }
  }

  /** The three classification rules, each as an if-and-only-if over the
      topic's subtopics. A topic without subtopics is finished; a topic
      whose subtopics carry only question or review marks is untouched. */
  lemma ClassifyRules(p: Progress, e: TopicEntry)
    ensures Classify(p, e) == Finished <==> AllHave(p, e.subject, e.topic, e.subs, Complete)
    ensures Classify(p, e) == Started
        <==> !AllHave(p, e.subject, e.topic, e.subs, Complete) && SomeHas(p, e.subject, e.topic, e.subs, Theory)
    ensures Classify(p, e) == Untouched
        <==> !AllHave(p, e.subject, e.topic, e.subs, Complete) && !SomeHas(p, e.subject, e.topic, e.subs, Theory)
    ensures e.subs == [] ==> Classify(p, e) == Finished
  {
    MarkedAll(p, e.subject, e.topic, e.subs, Complete);
    MarkedSome(p, e.subject, e.topic, e.subs, Complete);
    MarkedSome(p, e.subject, e.topic, e.subs, Theory);
  }

  /** Selecting by each of the three statuses splits the labels. */
  lemma {:induction false} SelectPartition(ts: seq<(Status, Label)>)
    ensures multiset(Select(ts, Finished)) + multiset(Select(ts, Started))
          + multiset(Select(ts, Untouched)) == multiset(Labels(ts))
  {
    if ts != [] {
      var init, t := ts[..|ts| - 1], ts[|ts| - 1];
      assert ts == init + [t];
      assert Labels(ts) == Labels(init) + [t.1];
      SelectPartition(init);
      SelectSnoc(init, t, Finished);
      SelectSnoc(init, t, Started);
      SelectSnoc(init, t, Untouched);
    }
  }

  /** Every topic lands in exactly one of the three lists: together they
      hold each topic's label once. */
  lemma ListedPartition(p: Progress, topics: seq<TopicEntry>)
    ensures multiset(Listed(p, topics, Finished)) + multiset(Listed(p, topics, Started))
          + multiset(Listed(p, topics, Untouched)) == multiset(AllLabels(p, topics))
    ensures |Listed(p, topics, Finished)| + |Listed(p, topics, Started)| + |Listed(p, topics, Untouched)| == |topics|
  {
    var ts := Tagged(p, topics);
    SelectPartition(ts);
    assert Labels(ts) == AllLabels(p, topics);
    assert |multiset(Labels(ts))| == |topics|;
  }

  lemma {:induction false} SelectMember(ts: seq<(Status, Label)>, s: Status, l: Label)
    ensures l in Select(ts, s) <==> exists i :: 0 <= i < |ts| && ts[i] == (s, l)
  {
    if ts != [] {
      var init, t := ts[..|ts| - 1], ts[|ts| - 1];
      assert ts == init + [t];
      SelectMember(init, s, l);
      SelectSnoc(init, t, s);
      if exists i :: 0 <= i < |ts| && ts[i] == (s, l) {
        var i :| 0 <= i < |ts| && ts[i] == (s, l);
        if i < |init| {
          assert init[i] == ts[i];
        }
      }
      if exists i :: 0 <= i < |init| && init[i] == (s, l) {
        var i :| 0 <= i < |init| && init[i] == (s, l);
        assert ts[i] == init[i];
      }
    }
  }

  /** A list holds a label exactly when some topic with that status carries it. */
  lemma ListedMember(p: Progress, topics: seq<TopicEntry>, s: Status, l: Label)
    ensures l in Listed(p, topics, s)
        <==> exists i :: 0 <= i < |topics| && Classify(p, topics[i]) == s && LabelOf(p, topics[i]) == l
  {
    SelectMember(Tagged(p, topics), s, l);
  }

  lemma {:induction false} SelectAppend(a: seq<(Status, Label)>, b: seq<(Status, Label)>, s: Status)
    ensures Select(a + b, s) == Select(a, s) + Select(b, s)
  {
    if b == [] {
      assert a + b == a;
      assert Select(a, s) + [] == Select(a, s);
    } else {
      var init, t := b[..|b| - 1], b[|b| - 1];
      SplitLast(a, b);
      var tail := if t.0 == s then [t.1] else [];
      calc {
        Select(a + b, s);
      == { SelectSnoc(a + init, t, s); }
        Select(a + init, s) + tail;
      == { SelectAppend(a, init, s); }
        (Select(a, s) + Select(init, s)) + tail;
      == { assert (Select(a, s) + Select(init, s)) + tail == Select(a, s) + (Select(init, s) + tail); }
        Select(a, s) + (Select(init, s) + tail);
      == { SelectSnoc(init, t, s); }
        Select(a, s) + Select(b, s);
      }
    }
  }

  lemma TaggedAppend(p: Progress, a: seq<TopicEntry>, b: seq<TopicEntry>)
    ensures Tagged(p, a + b) == Tagged(p, a) + Tagged(p, b)
  {
    var ab, ta, tb := Tagged(p, a + b), Tagged(p, a), Tagged(p, b);
    assert |ab| == |ta + tb|;
    forall i | 0 <= i < |ab| ensures ab[i] == (ta + tb)[i] {
      if i < |a| {
        assert (a + b)[i] == a[i] && (ta + tb)[i] == ta[i];
      } else {
        assert (a + b)[i] == b[i - |a|] && (ta + tb)[i] == tb[i - |a|];
      }
    }
  }

  /** The lists keep the syllabus order: the topics of an earlier run come
      before those of a later one. */
  lemma ListedAppend(p: Progress, a: seq<TopicEntry>, b: seq<TopicEntry>, s: Status)
    ensures Listed(p, a + b, s) == Listed(p, a, s) + Listed(p, b, s)
  {
    TaggedAppend(p, a, b);
    SelectAppend(Tagged(p, a), Tagged(p, b), s);
  }
}
