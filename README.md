# Study planner core, modelled in Dafny

`appmed.py` is a single-page study planner for a medical exam. A syllabus
maps each subject to its topics, and each topic to a list of subtopics. A
progress map holds one record per subtopic under the key
`"subject-topic-subtopic"`. A record has four fields, each of which may be
missing: theory read, questions done, review done, and the number of
questions solved. The same map holds the weekly schedule under the key
`"crono_text"`. The app has three pages, and a sidebar button clears all
the data.

This project models the parts of that script that compute or change state:

- **Dashboard** (`dashboard.dfy`): one pass over the whole syllabus. It
  - counts the subtopics, those with theory read, those with questions, and
    the questions solved;
  - files every topic as finished, started or untouched;
  - computes the theory percentage.

  `Dashboard.Summarize` is the nested loop of the source, written as three
  methods, one per loop level. It is proved against `BoardOf`, a
  specification function over the flat list of topics. The properties are
  lemmas about that function:
  - the nested walk is equal to one flat walk over every subtopic key;
  - the counter bounds hold;
  - the three lists partition the topics and keep syllabus order;
  - each classification rule holds as an if-and-only-if.
- **Progress records and tallies** (`progress.dfy`): a missing key, or a
  missing field, reads as false or as 0, as `.get(key, {})` does in the
  source. `TopicTally` holds the counters the dashboard and the editor keep
  over a topic's subtopics. `MarkedAll` and `MarkedSome` connect a counter
  to "every subtopic" and "some subtopic".
- **Editor** (`editor.dfy`): the header tally of a topic, with its icons
  and question total, and the icon of each subtopic row. Both are proved to
  agree with the dashboard's classification.
- **Session state** (`session.dfy`): a `Session` class holds the progress
  map and the copy last written to the data file. Three methods change it:
  - `ClearAll` clears everything;
  - `EditSubtopic` writes one subtopic record from the editor;
  - `EditSchedule` runs the schedule page's loop over the days.

  Each method states the whole new state. Lemmas show what a change leaves
  alone, and what the dashboard shows after a clear.

Two consequences of the source fall out of the contracts:

- A subtopic without a stored record is always written when its editor row
  is drawn, because a missing field never equals a widget value
  (`SessionState.Session.EditSubtopic`).
- A stored schedule that lacks a day gets that day written even when the
  box is left empty (`SessionState.Session.WriteDays`).

## Model

| member | source | states |
|---|---|---|
| ProgressData.Key | appmed.py:135 | A subtopic key has the length of subject, topic and subtopic plus two separators, and a '-' right after the subject. |
| ProgressData.KeyIsNotCronoKey | appmed.py:135 | No subtopic key is "crono_text": a subtopic key holds a '-' right after the subject, and "crono_text" holds none. So the editor's write never touches the schedule. |
| ProgressData.RecordAt | appmed.py:136 | An absent key reads as the record with every field missing. A stored subtopic record is read back as stored. That a write changes only its own key, and that the cleared map reads as empty everywhere, is proved in `SessionState.EditKeepsOthers` and `SessionState.ClearedTally`. |
| ProgressData.IsSet | appmed.py:139-148 | A flag passes the truthiness test exactly when it is stored as true. A missing field, for which `.get` gives None, fails it. |
| ProgressData.Questions | appmed.py:145 | The question count is the stored number, and 0 when the field is missing, as `.get("num_questoes", 0)` gives. |
| ProgressData.Has | appmed.py:139-148 | The flag tests of one record: theory, questions, review, all three, and questions marked or a positive count. The record with every field missing passes none of them, so an absent key counts for nothing. |
| ProgressData.Count | appmed.py:133-149 | One more subtopic adds one to the subtopic count and adds its stored question count (0 when missing) to the question total. What it adds to each flag counter is `ProgressData.MarkedCount`, and what the counters mean over a topic is `ProgressData.MarkedAll` and `ProgressData.MarkedSome`. |
| ProgressData.TopicTally | appmed.py:133-149 | A topic's tally counts exactly as many subtopics as the topic lists. |
| ProgressData.TopicTallyBounded | appmed.py:139-149 | No flag counter of a topic exceeds its subtopic count. The complete count is at most each of the theory, questions and review counts. |
| ProgressData.MarkedAll | appmed.py:204-220 | A flag counter is at most the subtopic count. It equals the subtopic count exactly when every subtopic has the flag. |
| ProgressData.MarkedSome | appmed.py:152-156 | A flag counter is positive exactly when some subtopic has the flag. |
| ProgressData.Keys | appmed.py:133-135 | The keys of a topic's subtopics, one per subtopic, in list order. That tallying these keys is tallying the topic is `ProgressData.TopicTallyIsKeyTally`. |
| ProgressData.KeyTally | appmed.py:133-136 | Tallying a flat run of keys counts one subtopic per key. |
| ProgressData.TopicTallyIsKeyTally | appmed.py:133-136 | Tallying a topic by its subtopic names over the map equals tallying the keys built from those names. |
| ProgressData.KeyTallyAppend | appmed.py:128-149 | Tallying two runs of keys one after the other adds their tallies field by field. |
| Dashboard.TopicsOf | appmed.py:129-130 | A subject contributes one topic entry per topic, in order: entry i carries the subject, the name and the subtopic list of topic i. |
| Dashboard.AnyTheory | appmed.py:154-156 | The `any(...)` test holds exactly when some subtopic of the topic has its theory read. |
| Dashboard.StatusOf | appmed.py:152-159 | The three-way branch on plain values: finished exactly when concluded == total; started exactly when concluded != total and either concluded > 0 or some theory is read; untouched exactly when concluded != total, concluded == 0 and no theory is read. |
| Dashboard.Classify | appmed.py:130-159 | A topic's status from the counters the loop keeps. It is finished exactly when the complete count equals the number of subtopics. It is started exactly when the complete count is below that and either positive or some subtopic has its theory read. It is untouched exactly when the complete count is 0, below the number of subtopics, and no theory is read. The same rules stated over the subtopics themselves are `Dashboard.ClassifyRules`. |
| Dashboard.LabelFor | appmed.py:151-157 | The label names the topic and its subject. It carries the progress count, with the concluded and total values given, exactly when the branch appends to the started list. |
| Dashboard.LabelOf | appmed.py:151-157 | A label names the topic and its subject. It carries a progress count exactly when the topic is started, and then it shows concluded < total, where total is the number of subtopics. |
| Dashboard.PercTeoria | appmed.py:161 | The percentage is 0 for an empty syllabus. Otherwise it is exactly `done * 100 / total`. It lies in [0, 100] whenever `done <= total`. |
| Dashboard.Tagged | appmed.py:150-159 | Each topic is paired with its status and its label, in topic order. What selecting from these pairs gives is proved in `Dashboard.ListedPartition` and `Dashboard.ListedMember`. |
| Dashboard.AllLabels | appmed.py:151-157 | The label of each topic, in topic order. That the three lists together hold exactly these labels is `Dashboard.ListedPartition`. |
| Dashboard.Summarize | appmed.py:118-161 | Proved against the specification: the four counters equal the tally of every subtopic key of the syllabus; `total_topics` is the sum of the subtopic-list lengths; `done_teoria` and `topics_com_questoes` do not exceed it; each list is the topics with that status, in syllabus order; `perc_teoria` is the exact percentage and lies in [0, 100]. |
| Dashboard.ScanSubject | appmed.py:129-159 | The walk over one subject's topics extends the board by exactly those topics, in order. |
| Dashboard.ScanTopic | appmed.py:130-159 | One topic: its counters are added, and its label is appended to the list its status names. |
| Dashboard.FileTopic | appmed.py:151-159 | The three-way branch appends the plain label when concluded == total, the label with progress when some subtopic is complete or some theory is read, and the plain label to the untouched list otherwise. |
| Dashboard.FiledStep | appmed.py:130-159 | Counting a topic's subtopics into the board, then filing it by its complete count and its `any(...)` test, is the specification's step for that topic, with the status and label that the classification gives. |
| Dashboard.StepCounters | appmed.py:133-149 | Adding the topic's counters first and filing it afterwards is the same as one step of the specification. |
| Dashboard.ScanSubtopics | appmed.py:133-149 | The innermost loop adds the subtopic count, the theory count, the question total and the with-questions count of the topic to the running counters. It returns the topic's complete count. |
| Dashboard.BoardSnoc | appmed.py:128-159 | One more topic changes the specified board by exactly one step: its counters and its label in one list. |
| Dashboard.ListedSnoc | appmed.py:150-159 | One more topic appends its label to the list of its own status and to no other. |
| Dashboard.TotalsBounded | appmed.py:133-149 | Over any run of topics, `done_teoria`, `topics_com_questoes` and the complete count never exceed `total_topics`. |
| Dashboard.TotalsAppend | appmed.py:128-149 | Counting two runs of topics one after the other adds their counters. |
| Dashboard.TaggedAppend | appmed.py:128-159 | Tagging two runs of topics one after the other is tagging each run and concatenating the results. |
| Dashboard.SubjectTotals | appmed.py:129-149 | A subject's topic-by-topic counters equal the tally of its subtopic keys. |
| Dashboard.NestedEqualsFlat | appmed.py:128-149 | The nested subject/topic/subtopic walk counts exactly what one walk over every subtopic key, in order, counts. |
| Dashboard.TopicKeysCount | appmed.py:129-134 | A subject has one key per entry of its subtopic lists. |
| Dashboard.SubtopicKeysCount | appmed.py:128-134 | The syllabus has one key per entry of all its subtopic lists. |
| Dashboard.ClassifyRules | appmed.py:152-159 | Finished exactly when every subtopic is complete; a topic without subtopics is finished. Started exactly when not all subtopics are complete and some subtopic has its theory read. Untouched exactly when not all are complete and none has its theory read, so question or review marks alone leave a topic untouched. |
| Dashboard.ListedPartition | appmed.py:150-159 | The three lists together hold each topic's label exactly once: their multisets sum to the multiset of all labels, and their lengths sum to the number of topics. |
| Dashboard.ListedMember | appmed.py:150-159 | A list holds a label exactly when some topic with that list's status carries that label. |
| Dashboard.ListedAppend | appmed.py:128-159 | The lists keep syllabus order: the list over two runs of topics is the list over the first run followed by the list over the second. |
| Editor.SubIcon | appmed.py:237-241 | A row shows "✅" exactly when theory, questions and review are all marked. It shows "📖" exactly when theory is marked but not all three are. It shows "🔹" exactly when theory is not marked. |
| Editor.HeaderFor | appmed.py:213-220 | The header suffix is " ✅" exactly when all three marks are on every subtopic. Otherwise it is the concatenation of " 📖", " ✍️" and " 🔄", each included when every subtopic has that mark. |
| Editor.HeaderIcons | appmed.py:196-220 | The header tally loop produces the suffix for "every subtopic has theory / questions / review". The suffix is " ✅" exactly when the dashboard files the topic as finished. The question total is the sum of the stored counts. |
| Editor.CompleteIsAllThree | appmed.py:219 | Every subtopic is complete exactly when every subtopic has each of the three marks. |
| Editor.RowIcons | appmed.py:230-243 | The row icons of a topic are one per subtopic, in order. How they agree with the dashboard is `Editor.IconsAgree`. |
| Editor.IconsAgree | appmed.py:237-241 | The rows agree with the dashboard. A topic is finished exactly when every row shows "✅". It is started exactly when some row is not "✅" and some row is not "🔹". It is untouched exactly when some row is not "✅" and every row shows "🔹". |
| SessionState.DefaultSchedule | appmed.py:268 | The default week has exactly the seven days as keys, each with the empty text. How the schedule loop writes over it is `SessionState.Session.EditSchedule`. |
| SessionState.ScheduleOf | appmed.py:268 | The schedule read is the stored one when present, and the default week otherwise. What the schedule page does with it is `SessionState.Session.EditSchedule`. |
| SessionState.DayDiffers | appmed.py:274 | The test `txt != crono_data.get(d)` holds exactly when writing `txt` for that day would change the schedule. A missing day always differs. |
| SessionState.Override | appmed.py:275-276 | The schedule with each day's text written in, in order. Every day present before is still present afterwards. What each day holds afterwards is proved in `SessionState.OverrideInside` and `SessionState.OverrideOutside`. |
| SessionState.OverrideOutside | appmed.py:274-276 | A day the loop does not write keeps its presence and its text in the schedule. |
| SessionState.OverrideInside | appmed.py:274-276 | In a run of distinct days, each day written holds its new text afterwards. |
| SessionState.OverrideStep | appmed.py:270-276 | Each day's text is compared with the schedule as it was before the loop, because each day is visited once. |
| SessionState.DaysDistinct | appmed.py:267 | The seven day names are distinct. |
| SessionState.Session.constructor | appmed.py:92-93 | A session starts from the loaded map. `saved` also starts as that map, as an abstraction of the data file; see the `load_data` line under "## Left out". |
| SessionState.Session.ClearAll | appmed.py:107-112 | The map is emptied and saved exactly when the button is pressed and the confirmation is ticked. Otherwise nothing changes. |
| SessionState.Session.EditSubtopic | appmed.py:258-261 | A write happens exactly when (t, q, r, n_q) differs from the stored fields, a missing field differing from every value. It replaces only that key's record and saves the map. Afterwards the key holds the new record and the schedule is unchanged. |
| SessionState.Session.EditSchedule | appmed.py:267-278 | Over the seven days, the map changes exactly when some day's text differs from the schedule read, or that day is missing from it. The only change is the schedule key, set to the schedule read with every day's new text written in. The map is then saved. |
| SessionState.Session.WriteDays | appmed.py:270-278 | The day loop for any list of distinct days, starting from the schedule read before the loop. The map changes exactly when some day's text differs from that schedule. Only the schedule key changes, to that schedule with each day's text written in, and the map is then saved. |
| SessionState.AnyDiffersSpec | appmed.py:274 | The loop's running "some day changed" flag holds exactly when some visited day's text differs from the schedule read, or that day is missing from it. |
| SessionState.EditKeepsOthers | appmed.py:260 | After an editor write, the written key reads as the new record and every other key reads as before. |
| SessionState.ScheduleKeepsRecords | appmed.py:276 | Writing the schedule leaves every subtopic's record as it was. |
| SessionState.ClearedTally | appmed.py:109 | Over the empty map, every counter of a topic is zero except its subtopic count. |
| SessionState.ClearedTotals | appmed.py:109 | After a clear, the dashboard's theory, question, with-questions and complete counts are zero. |
| SessionState.ClearedClassify | appmed.py:109 | After a clear, a topic with subtopics is untouched and a topic without subtopics is finished. |
| SessionState.ClearedListed | appmed.py:109 | After a clear, no topic is listed as started. |

## Left out

- The Streamlit user interface is not modelled: page selection, columns, expanders, metrics, captions, `st.progress` and the plotly/pandas imports. Widget values enter as method parameters.
- Whether the clear-all button and its confirmation checkbox can both be true in the same run is not modelled. That depends on Streamlit's rerun semantics.
- `load_data` and `save_data` (appmed.py:72-88) are file I/O and are not modelled. This includes the backup copy and the fallback to the backup on a parse error. The saved file is an abstract copy of the map (`saved`), replaced at each save. It starts as the loaded map, which describes the data file only when `load_data` read that file. After a fallback (to the backup, or to the empty map when the data file cannot be parsed) the data file still holds its unreadable content, and when there is no data file there is none. In both cases `saved` does not describe the file until the first save.
- `st.rerun()` after an editor write is not modelled: `EditSubtopic` is one row's write. The rest of the page, drawn again after the rerun, is a further call.
- The label strings and the success messages are out of scope, as is the float rendering of the percentage (`:.1f`). Labels are kept abstract: a topic and subject, plus the two counts for a started topic. The percentage is an exact rational.
- The literal SYLLABUS (appmed.py:21-68) is not part of this model. Every operation takes the syllabus as a parameter, with the dictionaries' iteration order as a sequence. Whether distinct subtopics give distinct keys is not modelled.
- A value of the wrong JSON shape in the progress map reads as absent. This covers a record that is not an object, a field of another type, and any value under `"crono_text"` other than an object from day names to texts. The source would fail, use Python's truthiness, or (for an object of another shape under `"crono_text"`) write the days into that object next to its other fields.
- Dashboard.PercTeoria: uses exact rational arithmetic instead of Python floats, so it does not model rounding.
