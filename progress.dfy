// The progress map of the study planner: one record per subtopic, keyed by
// "subject-topic-subtopic", and the tallies that the dashboard and the
// editor compute over a topic's subtopics.
module ProgressData {

  datatype Option<T> = None | Some(value: T)

  /** The stored progress of one subtopic. Every field may be missing from
      the stored object; a missing flag reads as false, a missing question
      count as 0. */
  datatype Record = Record(
    teoria: Option<bool>,
    questoes: Option<bool>,
    revisao: Option<bool>,
    numQuestoes: Option<nat>)

  /** A value of the progress map: a subtopic record, or the weekly schedule
      (day name to free text) stored under CronoKey. */
  datatype Entry = SubtopicEntry(record: Record) | CronoEntry(days: map<string, string>)

  type Progress = map<string, Entry>

  const EmptyRecord := Record(None, None, None, None)

  /** The key under which the weekly schedule is stored. */
  const CronoKey := "crono_text"

  /** The key of a subtopic in the progress map. */
  function Key(subject: string, topic: string, sub: string): (k: string)
    ensures |k| == |subject| + |topic| + |sub| + 2
    ensures k[|subject|] == '-'
  {
    subject + "-" + topic + "-" + sub
  }

  /** No subtopic key is the schedule's key: a subtopic key always holds a
      '-', and "crono_text" holds none. */
  lemma KeyIsNotCronoKey(subject: string, topic: string, sub: string)
    ensures Key(subject, topic, sub) != CronoKey
  {
  }

  /** The record stored under key: absent keys (and values that are not a
      subtopic record) read as the empty record. */
  function RecordAt(p: Progress, key: string): (r: Record)
    ensures key !in p ==> r == EmptyRecord
    ensures key in p && p[key].SubtopicEntry? ==> r == p[key].record
  {
    if key in p && p[key].SubtopicEntry? then p[key].record else EmptyRecord
  }

  function SubRecord(p: Progress, subject: string, topic: string, sub: string): Record
  {
    RecordAt(p, Key(subject, topic, sub))
  }

  /** Truthiness of a stored flag: only a stored `true` counts. */
  predicate IsSet(flag: Option<bool>)
    ensures IsSet(flag) <==> flag.Some? && flag.value
  {
    flag == Some(true)
  }

  /** The stored question count; a missing count reads as 0. */
  function Questions(r: Record): (n: nat)
    ensures r.numQuestoes.None? ==> n == 0
    ensures r.numQuestoes.Some? ==> n == r.numQuestoes.value
  {
    match r.numQuestoes
    case Some(n) => n
    case None => 0
  }

  /** The properties of a record that the dashboard and the editor count. */
  datatype Flag =
    | Theory         // theory read
    | QuestionsDone  // questions marked as done
    | Review         // reviewed
    | Complete       // theory, questions and review all marked
    | WithQuestions  // questions marked, or a positive question count

  /** Whether a record has a flag; the record with every field missing has
      none. */
  predicate Has(r: Record, f: Flag)
    ensures Has(r, f) ==> r != EmptyRecord
  {
    match f
    case Theory => IsSet(r.teoria)
    case QuestionsDone => IsSet(r.questoes)
    case Review => IsSet(r.revisao)
    case Complete => IsSet(r.teoria) && IsSet(r.questoes) && IsSet(r.revisao)
    case WithQuestions => IsSet(r.questoes) || Questions(r) > 0
  }

  /** Counters over a run of subtopics: how many there are, how many have
      each flag, and the sum of their question counts. */
  datatype Tally = Tally(
    subs: nat,
    theory: nat,
    questionsDone: nat,
    review: nat,
    complete: nat,
    withQuestions: nat,
    questionCount: nat)

  const NoTally := Tally(0, 0, 0, 0, 0, 0, 0)

  function Marked(t: Tally, f: Flag): nat
  {
    match f
    case Theory => t.theory
    case QuestionsDone => t.questionsDone
    case Review => t.review
    case Complete => t.complete
    case WithQuestions => t.withQuestions
  }

  function Bit(b: bool): nat
  {
    if b then 1 else 0
  }

  /** The tally after one more subtopic with record r. */
  function Count(t: Tally, r: Record): (u: Tally)
    ensures u.subs == t.subs + 1
    ensures u.questionCount == t.questionCount + Questions(r)
  {
    Tally(t.subs + 1,
          t.theory + Bit(Has(r, Theory)),
          t.questionsDone + Bit(Has(r, QuestionsDone)),
          t.review + Bit(Has(r, Review)),
          t.complete + Bit(Has(r, Complete)),
          t.withQuestions + Bit(Has(r, WithQuestions)),
          t.questionCount + Questions(r))
  }

  lemma MarkedCount(t: Tally, r: Record, f: Flag)
    ensures Marked(Count(t, r), f) == Marked(t, f) + Bit(Has(r, f))
  {
  }

  function Plus(a: Tally, b: Tally): Tally
  {
    Tally(a.subs + b.subs, a.theory + b.theory, a.questionsDone + b.questionsDone,
          a.review + b.review, a.complete + b.complete,
          a.withQuestions + b.withQuestions, a.questionCount + b.questionCount)
  }

  lemma PlusNone(t: Tally)
    ensures Plus(t, NoTally) == t
  {
  }

  lemma CountPlus(a: Tally, b: Tally, r: Record)
    ensures Count(Plus(a, b), r) == Plus(a, Count(b, r))
  {
  }

  /** A tally never counts more marked subtopics than it counts subtopics,
      and a complete subtopic is also counted under each of its three flags. */
  ghost predicate Bounded(t: Tally)
  {
    && t.theory <= t.subs && t.questionsDone <= t.subs && t.review <= t.subs
    && t.withQuestions <= t.subs
    && t.complete <= t.theory && t.complete <= t.questionsDone && t.complete <= t.review
  }

  /** The counters of one topic's subtopics, accumulated in list order. */
  function TopicTally(p: Progress, subject: string, topic: string, subs: seq<string>): (t: Tally)
    ensures t.subs == |subs|
  {
    if subs == [] then NoTally
    else Count(TopicTally(p, subject, topic, subs[..|subs| - 1]),
               SubRecord(p, subject, topic, subs[|subs| - 1]))
  }

  /** A topic's counters never exceed its number of subtopics. */
  lemma {:induction false} TopicTallyBounded(p: Progress, subject: string, topic: string, subs: seq<string>)
    ensures Bounded(TopicTally(p, subject, topic, subs))
  {
    if subs != [] {
      TopicTallyBounded(p, subject, topic, subs[..|subs| - 1]);
    }
  }

  /** Every subtopic of the list has flag f. */
  predicate AllHave(p: Progress, subject: string, topic: string, subs: seq<string>, f: Flag)
  {
    forall i :: 0 <= i < |subs| ==> Has(SubRecord(p, subject, topic, subs[i]), f)
  }

  /** Some subtopic of the list has flag f. */
  predicate SomeHas(p: Progress, subject: string, topic: string, subs: seq<string>, f: Flag)
  {
    exists i :: 0 <= i < |subs| && Has(SubRecord(p, subject, topic, subs[i]), f)
  }

  /** A counter reaches the number of subtopics exactly when every subtopic
      has the flag. */
  lemma {:induction false} MarkedAll(p: Progress, subject: string, topic: string, subs: seq<string>, f: Flag)
    ensures Marked(TopicTally(p, subject, topic, subs), f) <= |subs|
    ensures Marked(TopicTally(p, subject, topic, subs), f) == |subs| <==> AllHave(p, subject, topic, subs, f)
  {
    if subs != [] {
      var init := subs[..|subs| - 1];
      var r := SubRecord(p, subject, topic, subs[|subs| - 1]);
      MarkedAll(p, subject, topic, init, f);
      var before := TopicTally(p, subject, topic, init);
      MarkedCount(before, r, f);
      if AllHave(p, subject, topic, subs, f) {
        assert Has(r, f);
        assert AllHave(p, subject, topic, init, f) by {
          forall i | 0 <= i < |init| ensures Has(SubRecord(p, subject, topic, init[i]), f) {
            assert init[i] == subs[i];
          }
        }
      }
      if Marked(TopicTally(p, subject, topic, subs), f) == |subs| {
        forall i | 0 <= i < |subs| ensures Has(SubRecord(p, subject, topic, subs[i]), f) {
          if i < |init| {
            assert init[i] == subs[i];
          }
        }
      }
    }
  }

  /** A counter is positive exactly when some subtopic has the flag. */
  lemma {:induction false} MarkedSome(p: Progress, subject: string, topic: string, subs: seq<string>, f: Flag)
    ensures Marked(TopicTally(p, subject, topic, subs), f) > 0 <==> SomeHas(p, subject, topic, subs, f)
  {
    if subs != [] {
      var init := subs[..|subs| - 1];
      var r := SubRecord(p, subject, topic, subs[|subs| - 1]);
      MarkedSome(p, subject, topic, init, f);
      var before := TopicTally(p, subject, topic, init);
      MarkedCount(before, r, f);
      if SomeHas(p, subject, topic, subs, f) && !Has(r, f) {
        var i :| 0 <= i < |subs| && Has(SubRecord(p, subject, topic, subs[i]), f);
        assert i < |init| && init[i] == subs[i];
      }
      if SomeHas(p, subject, topic, init, f) {
        var i :| 0 <= i < |init| && Has(SubRecord(p, subject, topic, init[i]), f);
        assert init[i] == subs[i];
      }
    }
  }

  /** The keys of a topic's subtopics, in list order. */
  function Keys(subject: string, topic: string, subs: seq<string>): (ks: seq<string>)
    ensures |ks| == |subs|
    ensures forall i :: 0 <= i < |subs| ==> ks[i] == Key(subject, topic, subs[i])
  {
    seq(|subs|, i requires 0 <= i < |subs| => Key(subject, topic, subs[i]))
  }

  /** The same counters taken over a flat list of keys. */
  function KeyTally(p: Progress, keys: seq<string>): (t: Tally)
    ensures t.subs == |keys|
  {
    if keys == [] then NoTally
    else Count(KeyTally(p, keys[..|keys| - 1]), RecordAt(p, keys[|keys| - 1]))
  }

  /** Tallying a topic by subtopic name is tallying the keys built from its names. */
  lemma {:induction false} TopicTallyIsKeyTally(p: Progress, subject: string, topic: string, subs: seq<string>)
    ensures TopicTally(p, subject, topic, subs) == KeyTally(p, Keys(subject, topic, subs))
  {
    if subs != [] {
      var init := subs[..|subs| - 1];
      var ks := Keys(subject, topic, subs);
      assert ks[..|ks| - 1] == Keys(subject, topic, init);
      assert ks[|ks| - 1] == Key(subject, topic, subs[|subs| - 1]);
      TopicTallyIsKeyTally(p, subject, topic, init);
    }
  }

  lemma KeyTallySnoc(p: Progress, keys: seq<string>, k: string)
    ensures KeyTally(p, keys + [k]) == Count(KeyTally(p, keys), RecordAt(p, k))
  {
    assert (keys + [k])[..|keys|] == keys;
  }

  lemma SplitLast<T>(a: seq<T>, b: seq<T>)
    requires b != []
    ensures b == b[..|b| - 1] + [b[|b| - 1]]
    ensures a + b == (a + b[..|b| - 1]) + [b[|b| - 1]]
  {
  }

  /** Tallying two runs of keys one after the other adds their tallies. */
  lemma {:induction false} KeyTallyAppend(p: Progress, a: seq<string>, b: seq<string>)
    ensures KeyTally(p, a + b) == Plus(KeyTally(p, a), KeyTally(p, b))
  {
    if b == [] {
      assert a + b == a;
      PlusNone(KeyTally(p, a));
    } else {
      var init, last := b[..|b| - 1], b[|b| - 1];
      SplitLast(a, b);
      var r := RecordAt(p, last);
      calc {
        KeyTally(p, a + b);
      == { KeyTallySnoc(p, a + init, last); }
        Count(KeyTally(p, a + init), r);
      == { KeyTallyAppend(p, a, init); }
        Count(Plus(KeyTally(p, a), KeyTally(p, init)), r);
      == { CountPlus(KeyTally(p, a), KeyTally(p, init), r); }
        Plus(KeyTally(p, a), Count(KeyTally(p, init), r));
      == { KeyTallySnoc(p, init, last); }
        Plus(KeyTally(p, a), KeyTally(p, b));
      }
    }
  }
}
