// The subject editor: the header of each topic (a tally of its subtopics'
// marks and their question counts) and the icon in front of each subtopic.
module Editor {
  import opened ProgressData
  import opened Dashboard

  /** The icon of one subtopic row: complete, theory read, or neither. */
  function SubIcon(r: Record): (icon: string)
    ensures icon == "✅" <==> Has(r, Complete)
    ensures icon == "📖" <==> Has(r, Theory) && !Has(r, Complete)
    ensures icon == "🔹" <==> !Has(r, Theory)
  {
    if IsSet(r.teoria) && IsSet(r.questoes) && IsSet(r.revisao) then "✅"
    else if IsSet(r.teoria) then "📖"
    else "🔹"
  }

  /** The header suffix of a topic from whether every subtopic has its
      theory, its questions and its review marked. */
  function HeaderFor(allTheory: bool, allQuestions: bool, allReview: bool): (icons: string)
    ensures icons == " ✅" <==> allTheory && allQuestions && allReview
  {
    if allTheory && allQuestions && allReview then " ✅"
    else
      var s := (if allTheory then " 📖" else "") + (if allQuestions then " ✍️" else "")
               + (if allReview then " 🔄" else "");
      assert s != " ✅" by {
        if |s| == 2 {
          assert s[1] != '✅';
        }
      }
      s
  }

  /** The header of one topic: the icons for the marks that every subtopic
      carries (a single check mark when all three do) and the total of
      the subtopics' question counts. */
  method HeaderIcons(p: Progress, subject: string, topic: string, subs: seq<string>)
    returns (icons: string, qTotal: nat)
    ensures icons == HeaderFor(AllHave(p, subject, topic, subs, Theory),
                               AllHave(p, subject, topic, subs, QuestionsDone),
                               AllHave(p, subject, topic, subs, Review))
    ensures icons == " ✅" <==> Classify(p, TopicEntry(subject, topic, subs)) == Finished
    ensures qTotal == TopicTally(p, subject, topic, subs).questionCount
  {
    var subCount := |subs|;
    var doneT, doneQ, doneR := 0, 0, 0;
    qTotal := 0;
    for k := 0 to |subs|
      invariant doneT == TopicTally(p, subject, topic, subs[..k]).theory
      invariant doneQ == TopicTally(p, subject, topic, subs[..k]).questionsDone
      invariant doneR == TopicTally(p, subject, topic, subs[..k]).review
      invariant qTotal == TopicTally(p, subject, topic, subs[..k]).questionCount
    {
      assert subs[..k + 1][..k] == subs[..k];
      var prog := RecordAt(p, Key(subject, topic, subs[k]));
      if IsSet(prog.teoria) { doneT := doneT + 1; }
      if IsSet(prog.questoes) { doneQ := doneQ + 1; }
      if IsSet(prog.revisao) { doneR := doneR + 1; }
      qTotal := qTotal + Questions(prog);
    }
    assert subs[..|subs|] == subs;
    MarkedAll(p, subject, topic, subs, Theory);
    MarkedAll(p, subject, topic, subs, QuestionsDone);
    MarkedAll(p, subject, topic, subs, Review);
    icons := HeaderFor(doneT == subCount, doneQ == subCount, doneR == subCount);
    CompleteIsAllThree(p, subject, topic, subs);
    ClassifyRules(p, TopicEntry(subject, topic, subs));
  }

  /** Every subtopic is complete exactly when every subtopic has each of
      the three marks. */
  lemma CompleteIsAllThree(p: Progress, subject: string, topic: string, subs: seq<string>)
    ensures AllHave(p, subject, topic, subs, Complete)
        <==> AllHave(p, subject, topic, subs, Theory) && AllHave(p, subject, topic, subs, QuestionsDone)
             && AllHave(p, subject, topic, subs, Review)
  {
    if AllHave(p, subject, topic, subs, Theory) && AllHave(p, subject, topic, subs, QuestionsDone)
       && AllHave(p, subject, topic, subs, Review) {
      forall i | 0 <= i < |subs| ensures Has(SubRecord(p, subject, topic, subs[i]), Complete) {
        assert Has(SubRecord(p, subject, topic, subs[i]), Theory);
        assert Has(SubRecord(p, subject, topic, subs[i]), QuestionsDone);
        assert Has(SubRecord(p, subject, topic, subs[i]), Review);
      }
    }
  }

  /** The icons of a topic's rows, in order. */
  function RowIcons(p: Progress, subject: string, topic: string, subs: seq<string>): (icons: seq<string>)
    ensures |icons| == |subs|
    ensures forall i :: 0 <= i < |subs| ==> icons[i] == SubIcon(SubRecord(p, subject, topic, subs[i]))
  {
    seq(|subs|, i requires 0 <= i < |subs| => SubIcon(SubRecord(p, subject, topic, subs[i])))
  }

  /** The editor's row icons agree with the dashboard: a topic is finished
      exactly when every row shows the check mark, started exactly when
      some row does not but some row shows the check mark or the book,
      and untouched exactly when some row does not show the check mark
      and every row shows the plain marker. */
  lemma IconsAgree(p: Progress, e: TopicEntry)
    ensures var icons := RowIcons(p, e.subject, e.topic, e.subs);
            Classify(p, e) == Finished <==> forall i :: 0 <= i < |icons| ==> icons[i] == "✅"
    ensures var icons := RowIcons(p, e.subject, e.topic, e.subs);
            (Classify(p, e) == Started
             <==> (exists i :: 0 <= i < |icons| && icons[i] != "✅")
                  && (exists i :: 0 <= i < |icons| && icons[i] != "🔹"))
    ensures var icons := RowIcons(p, e.subject, e.topic, e.subs);
            (Classify(p, e) == Untouched
             <==> (exists i :: 0 <= i < |icons| && icons[i] != "✅")
                  && (forall i :: 0 <= i < |icons| ==> icons[i] == "🔹"))
  {
    ClassifyRules(p, e);
  }
}
