/** The quiz wizard: a contact-entry step (step 0), one step per question
    (steps 1 to 5), a review step (step 6), and a final result once the server
    has answered. The buttons' `disabled` conditions and the parts of the page
    that are rendered at each step become the guards of the transitions. */
module QuizForm {
  import Js
  import SubmitRoute

  const QuestionCount := 5
  const OptionCount := 4
  const ReviewStep := QuestionCount + 1

  /** One entry of the answers array: `null` until an option is chosen. */
  datatype Slot = Empty | Chosen(index: nat)

  /** What the user (or the arrival of the server's reply) can do. */
  datatype Event =
    | TypeName(name: string)
    | TypeEmail(email: string)
    | Start
    | Choose(index: nat)
    | Back
    | Next
    | Edit
    | Submit
    | Receive(reply: SubmitRoute.Reply)

  function SlotValue(s: Slot): Js.Value {
    match s
    case Empty => Js.Null
    case Chosen(k) => Js.Num(k as real)
  }

  /** The request body `JSON.stringify({ name, email, answers })`. */
  function Payload(name: string, email: string, slots: seq<Slot>): Js.Value {
    Js.Obj(map[
      "name" := Js.Str(name),
      "email" := Js.Str(email),
      "answers" := Js.Arr(seq(|slots|, i requires 0 <= i < |slots| => SlotValue(slots[i])))])
  }

  class Quiz {
    var step: int
    var name: string
    var email: string
    var answers: array<Slot>
    var result: Js.Option<SubmitRoute.Reply>
    var loading: bool

    /** The wizard's invariant: the step stays in range, every question before
        the current one has been answered, the contact details are filled in
        once the quiz has started, and a request is in flight only before any
        result and only with every answer set. */
    ghost predicate Valid()
      reads this, answers
    {
      && answers.Length == QuestionCount
      && 0 <= step <= ReviewStep
      && (forall i :: 0 <= i < QuestionCount ==> answers[i].Chosen? ==> answers[i].index < OptionCount)
      && (forall i :: 0 <= i < step - 1 ==> answers[i].Chosen?)
      && (1 <= step ==> name != "" && email != "")
      && (loading ==> result.None? && AllAnswered())
    }

    ghost predicate AllAnswered()
      reads this, answers
    {
      forall i :: 0 <= i < answers.Length ==> answers[i].Chosen?
    }

    /** When each event can happen. Nothing but the result is rendered once a
        result is set; the name and email inputs exist only at step 0; the
        question buttons only at steps 1 to 5, with Back disabled at step 1 and
        Next disabled while the current question is unanswered; Edit and Submit
        only at review, Submit disabled while a request is in flight. */
    ghost predicate Enabled(e: Event)
      requires Valid()
      reads this, answers
    {
      result.None? &&
      match e
      case TypeName(_) => step == 0
      case TypeEmail(_) => step == 0
      case Start => step == 0 && name != "" && email != ""
      case Choose(k) => 1 <= step <= QuestionCount && k < OptionCount
      case Back => 2 <= step <= QuestionCount
      case Next => 1 <= step <= QuestionCount && answers[step - 1] != Empty
      case Edit => step == ReviewStep
      case Submit => step == ReviewStep && !loading
      case Receive(_) => loading
    }

    constructor ()
      ensures Valid() && fresh(answers)
      ensures step == 0 && name == "" && email == ""
      ensures answers[..] == seq(QuestionCount, _ => Empty)
      ensures result.None? && !loading
    {
      step := 0;
      name := "";
      email := "";
      answers := new Slot[QuestionCount](_ => Empty);
      result := Js.None;
      loading := false;
    }

    method TypeName(s: string)
      requires Valid() && Enabled(Event.TypeName(s))
      modifies this
      ensures Valid()
      ensures name == s
      ensures step == old(step) && email == old(email) && answers == old(answers)
      ensures result == old(result) && loading == old(loading)
    {
      name := s;
    }

    method TypeEmail(s: string)
      requires Valid() && Enabled(Event.TypeEmail(s))
      modifies this
      ensures Valid()
      ensures email == s
      ensures step == old(step) && name == old(name) && answers == old(answers)
      ensures result == old(result) && loading == old(loading)
    {
      email := s;
    }

    /** "Start Quiz": from contact entry to the first question. */
    method StartQuiz()
      requires Valid() && Enabled(Event.Start)
      modifies this
      ensures Valid()
      ensures step == 1
      ensures name == old(name) && email == old(email) && answers == old(answers)
      ensures result == old(result) && loading == old(loading)
    {
      step := 1;
    }

    /** Picking option `k` of the current question sets only that question's
        slot. */
    method ChooseOption(k: nat)
      requires Valid() && Enabled(Event.Choose(k))
      modifies answers
      ensures Valid()
      ensures answers[..] == old(answers[..])[step - 1 := Chosen(k)]
    {
      answers[step - 1] := Chosen(k);
    }

    method GoBack()
      requires Valid() && Enabled(Event.Back)
      modifies this
      ensures Valid()
      ensures step == old(step) - 1
      ensures name == old(name) && email == old(email) && answers == old(answers)
      ensures result == old(result) && loading == old(loading)
    {
      step := step - 1;
    }

    /** "Next" (on the last question, "Review & Submit"). */
    method GoNext()
      requires Valid() && Enabled(Event.Next)
      modifies this
      ensures Valid()
      ensures step == old(step) + 1
      ensures name == old(name) && email == old(email) && answers == old(answers)
      ensures result == old(result) && loading == old(loading)
    {
      step := step + 1;
    }

    /** "Edit": back to the first question, keeping every answer and the
        contact details. It is not disabled while a request is in flight. */
    method EditAnswers()
      requires Valid() && Enabled(Event.Edit)
      modifies this
      ensures Valid()
      ensures step == 1
      ensures name == old(name) && email == old(email) && answers == old(answers)
      ensures result == old(result) && loading == old(loading)
    {
      step := 1;
    }

    /** "Submit": marks a request in flight and returns the body it carries. */
    method SubmitAnswers() returns (body: Js.Value)
      requires Valid() && Enabled(Event.Submit)
      modifies this
      ensures Valid()
      ensures loading
      ensures body == Payload(name, email, answers[..])
      ensures step == old(step) && name == old(name) && email == old(email)
      ensures answers == old(answers) && result == old(result)
    {
      loading := true;
      body := Payload(name, email, answers[..]);
    }

    /** The server's reply arrives: it becomes the result, whatever step the
        user has moved to meanwhile. */
    method ReceiveReply(reply: SubmitRoute.Reply)
      requires Valid() && Enabled(Event.Receive(reply))
      modifies this
      ensures Valid()
      ensures result == Js.Some(reply) && !loading
      ensures step == old(step) && name == old(name) && email == old(email)
      ensures answers == old(answers)
    {
      result := Js.Some(reply);
      loading := false;
    }
  }

  /** At review every question has been answered. */
  lemma ReviewHasAllAnswers(q: Quiz)
    requires q.Valid() && q.step == ReviewStep
    ensures q.AllAnswered()
  {
  }

  /** A result, success or failure, is final: no event is enabled any more, so
      there is no path to resubmit. */
  lemma ResultIsFinal(q: Quiz, e: Event)
    requires q.Valid() && q.result.Some?
    ensures !q.Enabled(e)
  {
  }

  /** Whatever the wizard sends passes the handler's validation once the quiz
      has started (name and email non-empty, answers an array), and its score
      counts the questions whose chosen option is the key's. */
  lemma PayloadAccepted(name: string, email: string, slots: seq<Slot>)
    requires name != "" && email != ""
    requires |slots| == QuestionCount
    ensures !Js.Nullish(Payload(name, email, slots))
    ensures SubmitRoute.Accepted(Payload(name, email, slots))
    ensures SubmitRoute.Score(Js.Get(Payload(name, email, slots), "answers"))
         == |set i: nat | i < QuestionCount && slots[i] == Chosen(SubmitRoute.Key[i] as nat)|
  {
    var p := Payload(name, email, slots);
    var answers := Js.Get(p, "answers");
    assert answers.elems == seq(|slots|, i requires 0 <= i < |slots| => SlotValue(slots[i]));
    assert forall i :: 0 <= i < |SubmitRoute.Key| ==> SubmitRoute.Key[i] >= 0;
    assert SubmitRoute.MatchSet(answers, |SubmitRoute.Key|)
        == set i: nat | i < QuestionCount && slots[i] == Chosen(SubmitRoute.Key[i] as nat);
    SubmitRoute.ScoreCountsMatches(answers);
  }

  /** Submitting from review and receiving the handler's reply: the body is
      never rejected as missing fields, the reply is a score exactly when the
      store and the mailer both succeed, and the wizard is then finished. */
  method SubmitAndReceive(q: Quiz, now: int, insertOk: bool, sendOk: bool)
    requires q.Valid() && q.Enabled(Event.Submit)
    modifies q
    ensures q.Valid() && q.result.Some? && !q.loading
    ensures q.result.value != SubmitRoute.Failed(SubmitRoute.MissingFields)
    ensures q.result.value.Scored? <==> insertOk && sendOk
    ensures forall e :: !q.Enabled(e)
  {
    var body := q.SubmitAnswers();
    PayloadAccepted(q.name, q.email, q.answers[..]);
    var response, effects := SubmitRoute.Post(Js.Some(body), now, insertOk, sendOk);
    SubmitRoute.SuccessShape(Js.Some(body), now, insertOk, sendOk);
    SubmitRoute.RejectionHasNoEffects(Js.Some(body), now, insertOk, sendOk);
    q.ReceiveReply(response.reply);
  }
}
