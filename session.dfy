// The planner's session state: the progress map the pages read and write,
// the copy last written to the data file, and the three operations that
// change the map (clearing it, writing one subtopic's record from the
// editor, and writing the weekly schedule).
module SessionState {
  import opened ProgressData
  import opened Dashboard

  /** The days of the weekly schedule, in page order. */
  const Days: seq<string> := ["Segunda", "Terça", "Quarta", "Quinta", "Sexta", "Sábado", "Domingo"]

  /** The schedule shown when none is stored: every day empty. */
  function DefaultSchedule(): (m: map<string, string>)
    ensures m.Keys == set d | d in Days
    ensures forall d :: d in m ==> m[d] == ""
  {
    map d | d in Days :: ""
  }

  /** The stored schedule, or the default one when none is stored. */
  function ScheduleOf(p: Progress): (m: map<string, string>)
    ensures CronoKey in p && p[CronoKey].CronoEntry? ==> m == p[CronoKey].days
    ensures CronoKey !in p ==> m == DefaultSchedule()
  {
    if CronoKey in p && p[CronoKey].CronoEntry? then p[CronoKey].days else DefaultSchedule()
  }

  /** Whether a day's text differs from what the schedule holds; a day the
      schedule lacks always differs. */
  predicate DayDiffers(m: map<string, string>, day: string, txt: string)
    ensures DayDiffers(m, day, txt) <==> m[day := txt] != m
  {
    assert day in m && m[day] == txt ==> m[day := txt] == m;
    assert day !in m ==> day in m[day := txt];
    day !in m || m[day] != txt
  }

  /** Whether some day of the run has a text that differs from m. */
  predicate AnyDiffers(m: map<string, string>, days: seq<string>, texts: seq<string>)
    requires |days| == |texts|
  {
    days != [] && (AnyDiffers(m, days[..|days| - 1], texts[..|texts| - 1])
                   || DayDiffers(m, days[|days| - 1], texts[|texts| - 1]))
  }

  /** AnyDiffers holds exactly when some day of the run differs. */
  lemma {:induction false} AnyDiffersSpec(m: map<string, string>, days: seq<string>, texts: seq<string>)
    requires |days| == |texts|
    ensures AnyDiffers(m, days, texts) <==> exists i :: 0 <= i < |days| && DayDiffers(m, days[i], texts[i])
  {
    if days != [] {
      var n := |days| - 1;
      AnyDiffersSpec(m, days[..n], texts[..n]);
      if exists i :: 0 <= i < |days| && DayDiffers(m, days[i], texts[i]) {
        var i :| 0 <= i < |days| && DayDiffers(m, days[i], texts[i]);
        if i < n {
          assert days[..n][i] == days[i] && texts[..n][i] == texts[i];
        }
      }
      if exists i :: 0 <= i < n && DayDiffers(m, days[..n][i], texts[..n][i]) {
        var i :| 0 <= i < n && DayDiffers(m, days[..n][i], texts[..n][i]);
        assert days[..n][i] == days[i] && texts[..n][i] == texts[i];
      }
    }
  }

  /** The schedule m with texts[i] written for days[i], in order. */
  function Override(m: map<string, string>, days: seq<string>, texts: seq<string>): (r: map<string, string>)
    requires |days| == |texts|
    ensures m.Keys <= r.Keys
  {
    if days == [] then m
    else Override(m, days[..|days| - 1], texts[..|texts| - 1])[days[|days| - 1] := texts[|texts| - 1]]
  }

  /** A day outside the run keeps what the schedule held for it. */
  lemma {:induction false} OverrideOutside(m: map<string, string>, days: seq<string>, texts: seq<string>, d: string)
    requires |days| == |texts| && d !in days
    ensures d in Override(m, days, texts) <==> d in m
    ensures d in m ==> Override(m, days, texts)[d] == m[d]
  {
    if days != [] {
      var n := |days| - 1;
      assert d !in days[..n];
      OverrideOutside(m, days[..n], texts[..n], d);
    }
  }

  /** In a run of distinct days, each day of the run holds its text. */
  lemma {:induction false} OverrideInside(m: map<string, string>, days: seq<string>, texts: seq<string>, i: nat)
    requires |days| == |texts| && i < |days|
    requires forall a, b :: 0 <= a < b < |days| ==> days[a] != days[b]
    ensures days[i] in Override(m, days, texts) && Override(m, days, texts)[days[i]] == texts[i]
  {
    var n := |days| - 1;
    if i < n {
      assert days[..n][i] == days[i] && texts[..n][i] == texts[i];
      assert forall a, b :: 0 <= a < b < |days[..n]| ==> days[..n][a] != days[..n][b];
      OverrideInside(m, days[..n], texts[..n], i);
    }
  }

  /** One more day written: its text differs from the schedule written so
      far exactly when it differs from the schedule it started from. */
  lemma OverrideStep(m: map<string, string>, days: seq<string>, texts: seq<string>, i: nat)
    requires |days| == |texts| && i < |days|
    requires forall a, b :: 0 <= a < b < |days| ==> days[a] != days[b]
    ensures Override(m, days[..i + 1], texts[..i + 1]) == Override(m, days[..i], texts[..i])[days[i] := texts[i]]
    ensures DayDiffers(Override(m, days[..i], texts[..i]), days[i], texts[i]) <==> DayDiffers(m, days[i], texts[i])
    ensures AnyDiffers(m, days[..i + 1], texts[..i + 1])
        <==> AnyDiffers(m, days[..i], texts[..i]) || DayDiffers(m, days[i], texts[i])
  {
    assert days[..i + 1][..i] == days[..i] && texts[..i + 1][..i] == texts[..i];
    assert days[i] !in days[..i];
    OverrideOutside(m, days[..i], texts[..i], days[i]);
  }

  /** The seven days are distinct. */
  lemma DaysDistinct()
    ensures forall i, j :: 0 <= i < j < |Days| ==> Days[i] != Days[j]
  {
  }

  class Session {
    /** The progress map of the running session. */
    var progress: Progress
    /** The map as last written to the data file. */
    var saved: Progress

    /** A session starts from the map read from the data file. */
    constructor (loaded: Progress)
      ensures progress == loaded && saved == loaded
    {
      progress := loaded;
      saved := loaded;
    }

    /** The sidebar's clear-all: only when the button is pressed and the
        confirmation is ticked does the map become empty and get saved. */
    method ClearAll(pressed: bool, confirmed: bool) returns (cleared: bool)
      modifies this
      ensures cleared <==> pressed && confirmed
      ensures cleared ==> progress == map[] && saved == map[]
      ensures !cleared ==> progress == old(progress) && saved == old(saved)
    {
      cleared := false;
      if pressed {
        if confirmed {
          progress := map[];
          saved := map[];
          cleared := true;
        }
      }
    }

    /** One subtopic row of the editor with the widget values t, q, r and
        nq: the record is rewritten and saved exactly when the four values
        differ from the stored fields, a missing field counting as
        different from any value. */
    method EditSubtopic(subject: string, topic: string, sub: string, t: bool, q: bool, r: bool, nq: nat)
      returns (written: bool)
      modifies this
      ensures var stored := RecordAt(old(progress), Key(subject, topic, sub));
              written <==> stored != Record(Some(t), Some(q), Some(r), Some(nq))
      ensures written ==> progress == old(progress)[Key(subject, topic, sub) := SubtopicEntry(Record(Some(t), Some(q), Some(r), Some(nq)))]
      ensures written ==> saved == progress
      ensures !written ==> progress == old(progress) && saved == old(saved)
      ensures RecordAt(progress, Key(subject, topic, sub)) == Record(Some(t), Some(q), Some(r), Some(nq))
      ensures ScheduleOf(progress) == ScheduleOf(old(progress))
    {
      var key := Key(subject, topic, sub);
      var status := RecordAt(progress, key);
      written := (Some(t), Some(q), Some(r), Some(nq)) != (status.teoria, status.questoes, status.revisao, status.numQuestoes);
      if written {
        KeyIsNotCronoKey(subject, topic, sub);
        progress := progress[key := SubtopicEntry(Record(Some(t), Some(q), Some(r), Some(nq)))];
        saved := progress;
      }
    }

    /** The schedule page with texts[i] in the box of Days[i]: each day
        whose text differs from the schedule is written into it, and the
        map is saved after each such write; nothing else changes. */
    method EditSchedule(texts: seq<string>) returns (changed: bool)
      requires |texts| == |Days|
      modifies this
      ensures var before := ScheduleOf(old(progress));
              changed <==> exists i :: 0 <= i < |Days| && DayDiffers(before, Days[i], texts[i])
      ensures changed ==> progress == old(progress)[CronoKey := CronoEntry(Override(ScheduleOf(old(progress)), Days, texts))]
      ensures changed ==> saved == progress
      ensures !changed ==> progress == old(progress) && saved == old(saved)
    {
      var cronoData := ScheduleOf(progress);
      DaysDistinct();
      changed := WriteDays(Days, texts, cronoData);
      AnyDiffersSpec(cronoData, Days, texts);
    }

    /** The loop of the schedule page over a list of distinct days, from
        the schedule read before the loop. */
    method WriteDays(days: seq<string>, texts: seq<string>, cronoData0: map<string, string>) returns (changed: bool)
      requires |texts| == |days|
      requires forall i, j :: 0 <= i < j < |days| ==> days[i] != days[j]
      modifies this
      ensures changed <==> AnyDiffers(cronoData0, days, texts)
      ensures progress == if changed then old(progress)[CronoKey := CronoEntry(Override(cronoData0, days, texts))]
                          else old(progress)
      ensures saved == if changed then progress else old(saved)
    {
      var cronoData := cronoData0;
      changed := false;
      for i := 0 to |days|
        invariant cronoData == Override(cronoData0, days[..i], texts[..i])
        invariant changed <==> AnyDiffers(cronoData0, days[..i], texts[..i])
        invariant progress == if changed then old(progress)[CronoKey := CronoEntry(cronoData)] else old(progress)
        invariant saved == if changed then progress else old(saved)
      {
        var d := days[i];
        OverrideStep(cronoData0, days, texts, i);
        if d !in cronoData || texts[i] != cronoData[d] {
          cronoData := cronoData[d := texts[i]];
          progress := progress[CronoKey := CronoEntry(cronoData)];
          saved := progress;
          changed := true;
        }
      }
      assert days[..|days|] == days && texts[..|texts|] == texts;
    }
  }

  /** After an editor write, the record under the written key is the new
      one and every other subtopic reads as before. */
  lemma EditKeepsOthers(p: Progress, key: string, rec: Record, other: string)
    requires other != key
    ensures RecordAt(p[key := SubtopicEntry(rec)], key) == rec
    ensures RecordAt(p[key := SubtopicEntry(rec)], other) == RecordAt(p, other)
  {
  }

  /** Writing the schedule leaves every subtopic's record as it was. */
  lemma ScheduleKeepsRecords(p: Progress, days: map<string, string>, subject: string, topic: string, sub: string)
    ensures RecordAt(p[CronoKey := CronoEntry(days)], Key(subject, topic, sub)) == RecordAt(p, Key(subject, topic, sub))
  {
    KeyIsNotCronoKey(subject, topic, sub);
  }

  /** With an empty map every topic's counters are zero but its number of
      subtopics. */
  lemma {:induction false} ClearedTally(subject: string, topic: string, subs: seq<string>)
    ensures TopicTally(map[], subject, topic, subs) == NoTally.(subs := |subs|)
  {
    if subs != [] {
      ClearedTally(subject, topic, subs[..|subs| - 1]);
    }
  }

  /** After clearing, the dashboard counts nothing. */
  lemma {:induction false} ClearedTotals(topics: seq<TopicEntry>)
    ensures Totals(map[], topics).theory == 0 && Totals(map[], topics).questionCount == 0
    ensures Totals(map[], topics).withQuestions == 0 && Totals(map[], topics).complete == 0
  {
    if topics != [] {
      var e := topics[|topics| - 1];
      ClearedTotals(topics[..|topics| - 1]);
      ClearedTally(e.subject, e.topic, e.subs);
    }
  }

  /** After clearing, no topic is listed as started: a topic with
      subtopics is untouched and one without is finished. */
  lemma {:induction false} ClearedListed(topics: seq<TopicEntry>)
    ensures Listed(map[], topics, Started) == []
  {
    if topics != [] {
      var init, e := topics[..|topics| - 1], topics[|topics| - 1];
      SplitLast([], topics);
      ClearedListed(init);
      ClearedClassify(e);
      ListedSnoc(map[], init, e);
    }
  }

  /** After clearing, a topic with subtopics is untouched and one without
      is finished. */
  lemma ClearedClassify(e: TopicEntry)
    ensures Classify(map[], e) == (if e.subs == [] then Finished else Untouched)
  {
    ClearedTally(e.subject, e.topic, e.subs);
    if e.subs != [] {
      assert !AnyTheory(map[], e.subject, e.topic, e.subs);
    }
  }
}
