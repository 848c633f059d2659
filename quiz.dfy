/** The editor's question list and the three handlers that change it. */
module Quiz {

  /** One question record: the prompt, the choice texts in display order and
      the zero-based index of the correct choice. */
  datatype Question = Question(question: string, choices: seq<string>, answer: int)

  /** What a call of `handleQuestionChange` edits: the prompt, or the choice
      at a position (the form only passes positions of existing choices). */
  datatype Field = Prompt | Choice(j: nat)

  /** How a handler call ended. `NoSuchQuestion` is the TypeError raised when
      the index names no question; the list is then left as it was. */
  datatype Outcome = Updated | NoSuchQuestion | NoSuchChoice

  const ChoicesPerQuestion: nat := 4

  /** The record the list starts with and that Add Question appends. */
  function Blank(): (b: Question)
    ensures |b.choices| == ChoicesPerQuestion
  {
    Question("", ["", "", "", ""], 0)
  }

  /** The shape every list the editor can reach has: at least one question,
      and four choices per question. */
  predicate WellFormed(qs: seq<Question>) {
    |qs| >= 1 && forall k :: 0 <= k < |qs| ==> |qs[k].choices| == ChoicesPerQuestion
  }

  /** `handleQuestionChange(index, "question", v)` on a valid index. */
  function WithPrompt(qs: seq<Question>, index: nat, v: string): (r: seq<Question>)
    requires index < |qs|
    ensures |r| == |qs|
    ensures r[index].question == v
    ensures r[index].choices == qs[index].choices && r[index].answer == qs[index].answer
    ensures forall k :: 0 <= k < |qs| && k != index ==> r[k] == qs[k]
    ensures WellFormed(qs) ==> WellFormed(r)
  {
    qs[index := qs[index].(question := v)]
  }

  /** `handleQuestionChange(index, j, v)` on a valid index and choice. */
  function WithChoice(qs: seq<Question>, index: nat, j: nat, v: string): (r: seq<Question>)
    requires index < |qs| && j < |qs[index].choices|
    ensures |r| == |qs|
    ensures |r[index].choices| == |qs[index].choices| && r[index].choices[j] == v
    ensures forall m :: 0 <= m < |qs[index].choices| && m != j ==> r[index].choices[m] == qs[index].choices[m]
    ensures r[index].question == qs[index].question && r[index].answer == qs[index].answer
    ensures forall k :: 0 <= k < |qs| && k != index ==> r[k] == qs[k]
    ensures WellFormed(qs) ==> WellFormed(r)
  {
    qs[index := qs[index].(choices := qs[index].choices[j := v])]
  }

  /** `handleAnswerChange(index, a)` on a valid index: no range check on `a`. */
  function WithAnswer(qs: seq<Question>, index: nat, a: int): (r: seq<Question>)
    requires index < |qs|
    ensures |r| == |qs|
    ensures r[index].answer == a
    ensures r[index].question == qs[index].question && r[index].choices == qs[index].choices
    ensures forall k :: 0 <= k < |qs| && k != index ==> r[k] == qs[k]
    ensures WellFormed(qs) ==> WellFormed(r)
  {
    qs[index := qs[index].(answer := a)]
  }

  /** `addQuestion()`: one blank question appended after all the others. */
  function WithBlank(qs: seq<Question>): (r: seq<Question>)
    ensures |r| == |qs| + 1
    ensures r[..|qs|] == qs
    ensures r[|qs|].question == "" && r[|qs|].answer == 0
    ensures |r[|qs|].choices| == ChoicesPerQuestion && forall m :: 0 <= m < ChoicesPerQuestion ==> r[|qs|].choices[m] == ""
    ensures WellFormed(qs) || qs == [] ==> WellFormed(r)
  {
    qs + [Blank()]
  }

  /** The component's `questions` state with its three handlers. */
  class Editor {
    var questions: seq<Question>

    ghost predicate Valid()
      reads this
    {
      WellFormed(questions)
    }

    constructor ()
      ensures Valid()
      ensures questions == [Blank()]
    {
      questions := [Blank()];
    }

    method HandleQuestionChange(index: nat, field: Field, value: string) returns (outcome: Outcome)
      modifies this
      ensures index >= |old(questions)| ==> outcome == NoSuchQuestion && questions == old(questions)
      ensures index < |old(questions)| && field == Prompt ==>
                outcome == Updated && questions == WithPrompt(old(questions), index, value)
      ensures index < |old(questions)| && field.Choice? && field.j < |old(questions)[index].choices| ==>
                outcome == Updated && questions == WithChoice(old(questions), index, field.j, value)
      ensures index < |old(questions)| && field.Choice? && field.j >= |old(questions)[index].choices| ==>
                outcome == NoSuchChoice && questions == old(questions)
      ensures old(Valid()) ==> Valid()
    {
      if index >= |questions| {
        outcome := NoSuchQuestion;
      } else if field == Prompt {
        questions := WithPrompt(questions, index, value);
        outcome := Updated;
      } else if field.j < |questions[index].choices| {
        questions := WithChoice(questions, index, field.j, value);
        outcome := Updated;
      } else {
        outcome := NoSuchChoice;
      }
    }

    method HandleAnswerChange(index: nat, value: int) returns (outcome: Outcome)
      modifies this
      ensures index >= |old(questions)| ==> outcome == NoSuchQuestion && questions == old(questions)
      ensures index < |old(questions)| ==>
                outcome == Updated && questions == WithAnswer(old(questions), index, value)
      ensures old(Valid()) ==> Valid()
    {
      if index >= |questions| {
        outcome := NoSuchQuestion;
      } else {
        questions := WithAnswer(questions, index, value);
        outcome := Updated;
      }
    }

    method AddQuestion()
      modifies this
      ensures questions == WithBlank(old(questions))
      ensures old(Valid()) ==> Valid()
    {
      questions := WithBlank(questions);
    }
  }
}
