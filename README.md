# QTI quiz generator — a verified model

A model of the quiz editor component `QTIQuizGenerator`, and properties proved about it. The editor keeps a list of multiple-choice questions, each with a prompt, four choice texts and the index of the correct choice. Three handlers edit the list:
- one changes the prompt or one choice of a question;
- one sets the correct answer;
- one appends a blank question.

`generateQTI` turns the list into an archive for learning platforms. The archive holds:
- an `assessment_meta.xml` listing the items;
- one QTI 1.2 item file `qti_q{n}.xml.qti` per question;
- the placeholder files `context.xml` and `course_settings.xml`.

The project has five modules:

- `Decimal` (decimal.dfy): the decimal text a template literal produces for an interpolated number. It has a reading function, and round-trip and injectivity lemmas.
- `Quiz` (quiz.dfy): the question record, the three edits as pure functions, and the class `Editor`. `Editor` holds the `questions` state, and its three handler methods update it in place. The two editing handlers also report how they ended; `AddQuestion` never fails and returns nothing.
- `Qti` (qti.dfy): the meta file and item texts, spelled as the templates spell them: the same line breaks, indentation and trailing blanks. Numbers are written in plain decimal, which is how JavaScript writes every integer of magnitude up to 2^53; above that the texts may differ (see "## Left out"). It also has readers that take those texts apart again and serve as their independent partners:
  - the ids a meta file lists;
  - the ident an item opens with;
  - the respident and choice ident its scoring condition compares.
  The lemmas prove that each reader returns what the writer put in, and where in an item its prompt, response tag and choice labels sit.
- `Archive` (archive.dfy): the part of JSZip that `generateQTI` uses, as the class `Zip`. Its `File` method stores a text under a path and replaces what was stored there before. The archive lists its paths in the order they were first stored. The functions `Stored` and `Listed` give the table and the path list left behind by a run of calls, and the lemmas relate them.
- `Generator` (generator.dfy): the calls `generateQTI` makes, in order. The `forEach` loop that writes the item files is the method `WriteItemFiles`, proved with loop invariants, and `GenerateQti` runs the whole sequence on a fresh `Zip`. The lemmas establish:
  - the resulting file tree and the order of its paths;
  - that the meta file and the item files agree on the ids;
  - how each handler changes the generated tree. Each edit rewrites exactly one item file. Adding a question adds one file and rewrites the meta file.

Two facts about the code shape the model:
- Prompts and choices are embedded in the XML verbatim; nothing is escaped. So an item's middle part cannot be read back in general, and the readers work only from the fixed prologue and the fixed scoring tail. The middle is described by position instead (`ItemLayout`, `PromptInMattext`, `ItemOffersChoice`).
- The code writes no `imsmanifest.xml` and no single aggregated QTI document. It writes `assessment_meta.xml`, one item file per question and the two placeholders, `|qs| + 3` files in all, and that is what is modelled.

Some behaviour of the code that the model makes explicit:
- The stored answer is never range-checked. The scoring condition names `choice{answer}` for whatever integer was stored. `AnswerNamesOfferedChoice` shows that this matches one of the item's labels exactly when the answer is the position of an existing choice.
- For an empty question list, the meta file still has a blank line between its title and its closing tag, and the archive still holds three files.

## Model

| member | source | states |
|---|---|---|
| Quiz.Editor.constructor | components/QTIQuizGenerator.js:5-7 | the editor starts with exactly one blank question (empty prompt, four empty choices, answer 0), and that state is well formed |
| Quiz.Blank | components/QTIQuizGenerator.js:26 | definition: the blank record (also the initial one at line 6), with `ChoicesPerQuestion` choices; `WithBlank` and the constructor state its contents |
| Quiz.WithPrompt | components/QTIQuizGenerator.js:10-15 | the edited question gets the new prompt and keeps its choices and answer; every other question is unchanged; the length and the four-choices shape are kept |
| Quiz.WithChoice | components/QTIQuizGenerator.js:10-15 | only choice `j` of the edited question changes, to the new text; its other choices, its prompt and answer, and every other question are kept |
| Quiz.WithAnswer | components/QTIQuizGenerator.js:17-21 | the edited question gets the new answer, with no range check; its prompt and choices and every other question are kept |
| Quiz.WithBlank | components/QTIQuizGenerator.js:23-27 | the old questions come first, unchanged, followed by one new question with an empty prompt, four empty choices and answer 0; a well-formed list stays well formed |
| Quiz.Editor.HandleQuestionChange | components/QTIQuizGenerator.js:10-15 | a missing question index fails and leaves the state as it was; a prompt edit or an edit of an existing choice replaces the state by the edited list; the well-formed shape is preserved |
| Quiz.Editor.HandleAnswerChange | components/QTIQuizGenerator.js:17-21 | a missing question index fails and leaves the state as it was; otherwise the state becomes the list with that question's answer set; the shape is preserved |
| Quiz.Editor.AddQuestion | components/QTIQuizGenerator.js:23-27 | the state becomes the old list with one blank question appended; the shape is preserved |
| Decimal.Digits | components/QTIQuizGenerator.js:37 | the text of `${i + 1}` is never empty and consists of digits only |
| Decimal.ValueOfDigits | components/QTIQuizGenerator.js:37 | reading back the decimal text of `n` gives `n` |
| Decimal.DigitsInjective | components/QTIQuizGenerator.js:37 | different numbers get different decimal texts |
| Decimal.IntText | components/QTIQuizGenerator.js:68 | the text of `${q.answer}` starts with a minus sign exactly when the answer is negative, and is the plain digits otherwise |
| Decimal.IntTextInjective | components/QTIQuizGenerator.js:68 | different answers give different texts |
| Qti.ItemId | components/QTIQuizGenerator.js:37-44 | definition, no contract: `q{i+1}`, the id both the meta reference (line 37) and the item ident (line 44) use; `ItemIdInjective`, `ReadItemIdentXml` and `ReadMetaXml` state its properties |
| Qti.ResponseId | components/QTIQuizGenerator.js:49-68 | definition, no contract: `response{i+1}`, written in the `response_lid` tag and in the scoring condition; `ResponseIdentsAgree` and `ItemScoring` state its properties |
| Qti.ChoiceId | components/QTIQuizGenerator.js:54-68 | definition, no contract: `choice{n}`, the label ident and the scored answer; `ChoiceIdInjective` and `AnswerNamesOfferedChoice` state its properties |
| Qti.Scoring | components/QTIQuizGenerator.js:68-74 | definition, no contract: the `varequal` condition and the rest of the item; `ItemScoring` reads it back |
| Qti.Join | components/QTIQuizGenerator.js:37 | definition, no contract: JavaScript's `join(sep)`; `ReadRefsJoin` reads joined references back, and `JoinEmpty` covers `join("")` |
| Qti.ItemRef | components/QTIQuizGenerator.js:37 | definition, no contract: one `<item_ref linkrefid="…" />`; `ReadRefOf` reads the id back |
| Qti.ItemRefs | components/QTIQuizGenerator.js:37 | definition, no contract: the `map` over the questions, one reference to `q{i+1}` per position; `ReadMetaXml` proves the ids come back in order |
| Qti.MetaXml | components/QTIQuizGenerator.js:34-38 | definition, no contract: the meta template; `ReadMetaXml` and `MetaDependsOnCountOnly` state its properties |
| Qti.Label | components/QTIQuizGenerator.js:53-56 | definition, no contract: one `response_label` with ident `choice{j}` and the choice text; `LabelsInChoiceOrder` and `ItemOffersChoice` place it |
| Qti.ChoiceLabels | components/QTIQuizGenerator.js:51-58 | definition, no contract: the labels joined with `""`; `LabelsInChoiceOrder` states where each label sits |
| Qti.ItemXml | components/QTIQuizGenerator.js:42-74 | definition, no contract: the item template; `ReadItemIdentXml`, `ItemScoring`, `ItemLayout`, `PromptInMattext`, `ResponseIdentsAgree` and `ItemOffersChoice` state its properties |
| Qti.ItemIdInjective | components/QTIQuizGenerator.js:37 | questions at different positions get different ids `q{i+1}` |
| Qti.ChoiceIdInjective | components/QTIQuizGenerator.js:68 | different integers give different choice idents |
| Qti.AnswerNamesOfferedChoice | components/QTIQuizGenerator.js:51-68 | the choice ident in the scoring condition equals the ident of one of the item's labels if and only if the stored answer is a position of an existing choice |
| Qti.ItemIds | components/QTIQuizGenerator.js:37 | the reference list of ids for `n` questions: `q{i+1}` at each position `i`, in order. That the meta file lists exactly these is stated by `ReadMetaXml` |
| Qti.ReadRefsJoin | components/QTIQuizGenerator.js:37 | splitting the joined `item_ref` lines at their separator and reading each one gives back every id, in order |
| Qti.ReadMetaXml | components/QTIQuizGenerator.js:34-38 | reading the meta text back gives exactly the ids `q1 .. qn` of the questions, in order (none for an empty list) |
| Qti.MetaDependsOnCountOnly | components/QTIQuizGenerator.js:37 | two lists of the same length produce the same meta text |
| Qti.ReadItemIdentXml | components/QTIQuizGenerator.js:42-44 | the item text of question `i` opens with an `item` whose ident is `q{i+1}`, the id the meta file lists at position `i` |
| Qti.ItemScoring | components/QTIQuizGenerator.js:66-74 | reading the scoring condition at the end of the item of question `i` gives respident `response{i+1}` and the choice ident `choice{answer}` |
| Qti.ItemLayout | components/QTIQuizGenerator.js:42-59 | the item text starts with its prologue; the prompt follows verbatim; the text closing the prompt's `mattext` and `material` follows the prompt; right after it comes the `response_lid` tag naming `response{i+1}`; after that tag come the choice labels, and right after them the text that closes `render_choice`, so the labels are its whole content |
| Qti.LabelsCloseClosesRenderChoice | components/QTIQuizGenerator.js:59 | the text that follows the choice labels opens, after its line break and indentation, with `</render_choice>` |
| Qti.PromptInMattext | components/QTIQuizGenerator.js:44-47 | the prompt is exactly the content of the item's `mattext` element: the prologue ends with `<mattext texttype="text/plain">`, the prompt follows it verbatim, and `</mattext>` follows the prompt |
| Qti.ResponseIdentsAgree | components/QTIQuizGenerator.js:49-68 | the respident that the scoring condition tests is the ident written in the same item's `response_lid` tag |
| Qti.JoinEmpty | components/QTIQuizGenerator.js:58 | `join("")` writes the strings one after the other, with nothing between them |
| Qti.ConcatAppend | components/QTIQuizGenerator.js:51-58 | the concatenation of two runs of strings (labels, for instance) is the concatenation of the joined run |
| Qti.Labels | components/QTIQuizGenerator.js:51-57 | definition: the `map` over the choices, one label `Label(j, cs[j])` per choice; `LabelsInChoiceOrder` proves where each label sits in the joined text |
| Qti.LabelsInChoiceOrder | components/QTIQuizGenerator.js:51-58 | the label for choice `j`, with ident `choice{j}` and the choice text, comes directly after the labels of the choices before it |
| Qti.ItemOffersChoice | components/QTIQuizGenerator.js:42-58 | every choice of a question has its label at a fixed position inside that question's item text |
| Archive.Stored | components/QTIQuizGenerator.js:39-79 | definition, no contract: the file table a run of `zip.file` calls leaves, a later call replacing an earlier one at the same path; `StoredKeys`, `StoredDistinct`, `StoredReplace` and `StoredInsert` state its properties |
| Archive.Listed | components/QTIQuizGenerator.js:39-79 | definition, no contract: the archive's path list, each path at its first call; `ListedPaths` and `StoredDistinct` state its properties |
| Archive.StoredKeys | components/QTIQuizGenerator.js:39-79 | after a run of `zip.file` calls, a path holds a file exactly when some call named it |
| Archive.ListedPaths | components/QTIQuizGenerator.js:39-79 | the archive lists each path once, and lists exactly the paths the calls named |
| Archive.StoredDistinct | components/QTIQuizGenerator.js:39-79 | when no path is named twice, the paths are listed in call order, there is one file per call, and each file holds the text its call gave |
| Archive.StoredSnoc | components/QTIQuizGenerator.js:39 | one more call stores its text under its path and, if the path is new, lists it last |
| Archive.StoredReplace | components/QTIQuizGenerator.js:39-79 | giving one call different data changes only the file at that call's path |
| Archive.StoredInsert | components/QTIQuizGenerator.js:39-79 | a call whose path no other call names leaves the same file wherever it sits among the calls |
| Archive.Zip.constructor | components/QTIQuizGenerator.js:31 | a new archive is empty and its table agrees with an empty run of calls |
| Archive.Zip.File | components/QTIQuizGenerator.js:39 | the text is stored under the path, replacing any earlier one; the path is listed last if it is new; the table stays what the calls so far leave behind |
| Generator.ItemPath | components/QTIQuizGenerator.js:75 | definition, no contract: `qti_q{i+1}.xml.qti`; `ItemPathInjective`, `ItemPathOfId` and `ItemPathNotFixed` state its properties |
| Generator.Entries | components/QTIQuizGenerator.js:39-79 | definition, no contract: every `zip.file` call of `generateQTI`, in order; `GenerateQti` is proved to issue them |
| Generator.FileTree | components/QTIQuizGenerator.js:39-79 | definition, no contract: the archive's table after those calls; `FileTreeLayout` states its contents |
| Generator.FileNames | components/QTIQuizGenerator.js:39-79 | definition, no contract: the archive's path list after those calls; `FileTreeLayout` and `FileNamesByCount` state it |
| Generator.ItemFiles | components/QTIQuizGenerator.js:75 | definition: one call per item text, at path `qti_q{i+1}.xml.qti`; `WriteItemFiles` proves the loop makes exactly these calls |
| Generator.PathList | components/QTIQuizGenerator.js:39-79 | definition: the paths in writing order, meta file first, then `qti_q{i+1}.xml.qti` for each question, then the context and settings files; `FileTreeLayout` proves the archive lists exactly these |
| Generator.Layout | components/QTIQuizGenerator.js:39-79 | definition: the calls in order, the meta file, one call per item text at its item path, then the two placeholders; `GenerateQti` with `LayoutCalls` proves the function issues exactly these |
| Generator.LayoutCalls | components/QTIQuizGenerator.js:39-79 | the four groups of calls, in the order the function issues them, make up that layout |
| Generator.Texts | components/QTIQuizGenerator.js:41-76 | definition: the text for each question is the template applied to that question and its position; `WriteItemFiles` proves the loop writes exactly these |
| Generator.WriteItemFiles | components/QTIQuizGenerator.js:41-76 | the `forEach` loop makes exactly one call per question, in question order, at path `qti_q{i+1}.xml.qti`, and keeps the archive consistent with its calls |
| Generator.GenerateQti | components/QTIQuizGenerator.js:30-80 | the archive holds `FileTree(qs)` and lists `FileNames(qs)` |
| Generator.ItemPathInjective | components/QTIQuizGenerator.js:75 | different questions get different item paths |
| Generator.ItemPathOfId | components/QTIQuizGenerator.js:44-75 | each item file is named `qti_` followed by the item's ident and `.xml.qti` |
| Generator.PathListDistinct | components/QTIQuizGenerator.js:39-79 | no path is written twice |
| Generator.PathListMembers | components/QTIQuizGenerator.js:39-79 | a path is written if and only if it is one of the three fixed paths or the item path of some question |
| Generator.LayoutStored | components/QTIQuizGenerator.js:39-79 | the archive lists the written paths in order, holds one file per path, and each file holds the text written to it |
| Generator.FileTreeLayout | components/QTIQuizGenerator.js:39-79 | the archive holds exactly the meta file, one item file per question and the two placeholders (`|qs| + 3` files, three for an empty list), listed in writing order, each with its template's text |
| Generator.MetaMatchesItemFiles | components/QTIQuizGenerator.js:37-75 | the stored meta file lists `q1 .. qn`; for each listed id the archive holds `qti_{id}.xml.qti`, and that item carries the same id |
| Generator.LayoutItem | components/QTIQuizGenerator.js:75 | the file at the path of item text `i` holds that text |
| Generator.ItemFile | components/QTIQuizGenerator.js:75 | the file stored for question `i` is that question's item text |
| Generator.ItemFileScoring | components/QTIQuizGenerator.js:66-75 | the stored item file of question `i` scores `response{i+1}` against `choice{answer}` |
| Generator.ItemPathNotFixed | components/QTIQuizGenerator.js:39-79 | no item path coincides with a fixed path |
| Generator.LayoutPaths | components/QTIQuizGenerator.js:39-79 | the paths of the calls are the path list, and they are distinct |
| Generator.LayoutListed | components/QTIQuizGenerator.js:39-79 | the listed paths depend on the number of item texts only |
| Generator.LayoutEdit | components/QTIQuizGenerator.js:41-76 | replacing one item text replaces exactly that one file |
| Generator.LayoutAdd | components/QTIQuizGenerator.js:39-79 | one more item text adds one file at a path not used before; with a new meta text the meta file changes as well, and nothing else does |
| Generator.AddQuestionAddsOneFile | components/QTIQuizGenerator.js:23-27 | after Add Question the archive gains one item file, the new question's, at a path it did not hold; the meta file is rewritten; every other file is unchanged |
| Generator.EditTouchesOneFile | components/QTIQuizGenerator.js:10-21 | when two lists differ in question `k` only, their archives differ only in the item file of question `k`; the meta file is unchanged |
| Generator.FileNamesByCount | components/QTIQuizGenerator.js:39-79 | the archive's path list depends on the number of questions only |
| Generator.PromptEditTouchesOneFile | components/QTIQuizGenerator.js:10-15 | a prompt edit of question `index` rewrites only that question's item file |
| Generator.ChoiceEditTouchesOneFile | components/QTIQuizGenerator.js:10-15 | a choice edit of question `index` rewrites only that question's item file |
| Generator.AnswerEditTouchesOneFile | components/QTIQuizGenerator.js:17-21 | an answer change of question `index` rewrites only that question's item file |

## Left out

- The rendered form (JSX, styles, the "Choice A..D" lettering) and React's `useState` plumbing. State is the `questions` field of `Editor`, and `setQuestions` is an assignment to it.
- Quiz.Editor.HandleQuestionChange: a choice position outside the question's choices fails with `NoSuchChoice` and leaves the state unchanged. The code would instead write past the end of the JavaScript array: at position `|choices|` that appends a fifth choice, and further out it leaves holes in the array. A field string that is neither `"question"` nor a position, which the form never passes, is not modelled either.
- Quiz.Editor.HandleAnswerChange: the answer is an integer. `parseInt` of text that is not a number (giving `NaN`, rendered "NaN") is not modelled. The form's `min`/`max` hints are not enforced by the code, and the model does not enforce them either.
- Decimal.IntText: the answer is modelled as an unbounded integer, written in plain decimal. The code stores it as a JavaScript number (a double), and the texts agree for every answer of magnitude up to 2^53. Above that, `${q.answer}` writes the shortest digits that read back as the same double, padded with zeros: an answer of 2^60 = 1152921504606846976 is scored as `choice1152921504606847000`, where the model writes `choice1152921504606846976`. From 10^21 on, JavaScript switches to exponent form (`choice1e+21`). Integers above 2^53 that are not doubles, such as 2^53 + 1, cannot be stored by the code at all; the model accepts them. `Decimal.Digits` of `i + 1` would only be affected beyond 2^53 questions.
- Qti.ItemIds: only the reference list of ids. That the meta file lists these ids, and only these, in order, is the contract of `Qti.ReadMetaXml`.
- JavaScript's shallow copy `[...questions]`, which shares the question objects with the previous state and so mutates them in place. The model replaces the whole list with a new value.
- The `zip.generateAsync` compression, the object URL and the download link (lines 81-83): this is I/O. The model ends with the table of paths and texts that the archive holds before it is compressed.
- JSZip beyond `new JSZip()` and `zip.file(path, text)`: folders, binary data, dates and compression options are not used by the code.
- The item text between the prologue and the scoring tail is stated by position (`ItemLayout`, `ItemOffersChoice`) rather than read back, because prompts and choices are not escaped and a reader cannot tell them from the markup around them.
