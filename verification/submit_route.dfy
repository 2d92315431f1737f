/** The `POST /api/submit` handler: validate the body, score the answers against
    a fixed key, pick a recommendation tier, insert one result record, send one
    confirmation email, and answer with the score or an error.

    The document store and the mail provider are not modelled as services: each
    call either succeeds or throws, and the caller supplies which. Every call the
    handler makes is appended, with its outcome, to an effect trace. */
module SubmitRoute {
  import opened Js

  /** The server-side answer key: the correct option index of each question. */
  const Key: seq<int> := [1, 1, 0, 2, 3]

  const KeepPracticing := "Keep practicing!"
  const Advanced := "Excellent — you're advanced. Try our advanced course."
  const Intermediate := "Good — review the intermediate topics."
  const Beginner := "Beginner — start with fundamentals and basic tutorials."
  const ResultsCollection := "results"

  /** What made the handler's `try` block throw; the text `String(err)` that the
      response carries is not modelled. */
  datatype Cause =
    | BodyNotJson     // `request.json()` rejected
    | BodyNullish     // destructuring `null`
    | InsertFailed    // connecting to the store or `insertOne` threw
    | SendFailed      // `sendMail` threw

  /** `MissingFields` is the fixed text "Missing fields". */
  datatype Error = MissingFields | Thrown(cause: Cause)

  /** The JSON body of a response: `{ok: true, score, recommendation}` or
      `{ok: false, error}`. */
  datatype Reply = Scored(score: nat, recommendation: string) | Failed(error: Error)

  datatype Response = Response(status: nat, reply: Reply)

  /** The document inserted into the `results` collection. */
  datatype Record = Record(
    name: Value, email: Value, answers: Value,
    score: nat, recommendation: string, createdAt: int)

  /** The confirmation email: recipient address and name, subject, and the score
      and recommendation that both bodies embed. */
  datatype Mail = Mail(
    to: Value, toName: Value, subject: string,
    score: nat, recommendation: string)

  datatype Effect =
    | Insert(collection: string, doc: Record, succeeded: bool)
    | Send(mail: Mail, succeeded: bool)

  datatype Exchange = Exchange(response: Response, effects: seq<Effect>)

  // ---------------------------------------------------------------------------
  // Scoring

  /** Whether `answers[i] === correct[i]`. */
  predicate Matches(answers: Value, i: nat)
    requires !Nullish(answers) && i < |Key|
  {
    StrictEqualsNumber(Index(answers, i), Key[i] as real)
  }

  /** The number of positions below `n` at which the answers match the key. */
  function CountUpTo(answers: Value, n: nat): (r: nat)
    requires !Nullish(answers) && n <= |Key|
    ensures r <= n
  {
    if n == 0 then 0
    else CountUpTo(answers, n - 1) + (if Matches(answers, n - 1) then 1 else 0)
  }

  /** The score of a submission: matches over the whole key. */
  function Score(answers: Value): (r: nat)
    requires !Nullish(answers)
    ensures r <= |Key|
  {
    CountUpTo(answers, |Key|)
  }

  /** The positions below `n` that score, as a set. */
  ghost function MatchSet(answers: Value, n: nat): set<nat>
    requires !Nullish(answers) && n <= |Key|
  {
    set i: nat | i < n && Matches(answers, i)
  }

  /** The recommendation tier for a score; the initial "Keep practicing!" text
      is overwritten on every path. */
  function Recommendation(score: int): (r: string)
    ensures r == Advanced <==> 4 <= score
    ensures r == Intermediate <==> 2 <= score < 4
    ensures r == Beginner <==> score < 2
    ensures r != KeepPracticing
  {
    if score >= 4 then Advanced
    else if score >= 2 then Intermediate
    else Beginner
  }

  /** The subject line `Your quiz result — ${score}/5`. */
  function Subject(score: nat): string {
    "Your quiz result — " + DecimalString(score) + "/5"
  }

  // ---------------------------------------------------------------------------
  // The handler

  function BadRequest(): Response {
    Response(400, Failed(MissingFields))
  }

  function ServerError(cause: Cause): Response {
    Response(500, Failed(Thrown(cause)))
  }

  predicate Accepted(body: Value)
    requires !Nullish(body)
  {
    Truthy(Get(body, "name")) && Truthy(Get(body, "email")) && Truthy(Get(body, "answers"))
  }

  function RecordFor(body: Value, now: int): (doc: Record)
    requires !Nullish(body) && Accepted(body)
  {
    var answers := Get(body, "answers");
    var score := Score(answers);
    Record(Get(body, "name"), Get(body, "email"), answers, score, Recommendation(score), now)
  }

  function MailFor(doc: Record): Mail {
    Mail(doc.email, doc.name, Subject(doc.score), doc.score, doc.recommendation)
  }

  /** What one request does. `body` is `None` when `request.json()` throws; `now`
      is the `createdAt` timestamp; `insertOk` and `sendOk` say whether the
      store and the mailer succeed. */
  function Handle(body: Option<Value>, now: int, insertOk: bool, sendOk: bool): (x: Exchange)
    ensures x.response.status in {200, 400, 500}
    ensures x.response.status == 200 <==> x.response.reply.Scored?
    ensures x.response.reply.Scored? ==> x.response.reply.score <= |Key|
    // at most one insert, then at most one send, and a send only after a stored record
    ensures |x.effects| <= 2
    ensures |x.effects| >= 1 ==> x.effects[0].Insert? && x.effects[0].collection == ResultsCollection
    ensures |x.effects| == 2 ==> x.effects[0].succeeded && x.effects[1].Send?
  {
    if body.None? then Exchange(ServerError(BodyNotJson), [])
    else if Nullish(body.value) then Exchange(ServerError(BodyNullish), [])
    else if !Accepted(body.value) then Exchange(BadRequest(), [])
    else
      var doc := RecordFor(body.value, now);
      if !insertOk then
        Exchange(ServerError(InsertFailed), [Insert(ResultsCollection, doc, false)])
      else if !sendOk then
        Exchange(ServerError(SendFailed),
                 [Insert(ResultsCollection, doc, true), Send(MailFor(doc), false)])
      else
        Exchange(Response(200, Scored(doc.score, doc.recommendation)),
                 [Insert(ResultsCollection, doc, true), Send(MailFor(doc), true)])
  }

  /** The handler as the route runs it: early returns, the counting loop, the
      reassigned recommendation and the two awaited calls in order. */
  method Post(body: Option<Value>, now: int, insertOk: bool, sendOk: bool)
    returns (response: Response, effects: seq<Effect>)
    ensures Exchange(response, effects) == Handle(body, now, insertOk, sendOk)
  {
    effects := [];
    if body.None? {
      response := ServerError(BodyNotJson);
      return;
    }
    var b := body.value;
    if Nullish(b) {
      response := ServerError(BodyNullish);
      return;
    }
    var name, email, answers := Get(b, "name"), Get(b, "email"), Get(b, "answers");
    if !Truthy(name) || !Truthy(email) || !Truthy(answers) {
      response := BadRequest();
      return;
    }

    var score := 0;
    var i := 0;
    while i < |Key|
      invariant 0 <= i <= |Key|
      invariant score == CountUpTo(answers, i)
    {
      if StrictEqualsNumber(Index(answers, i), Key[i] as real) {
        score := score + 1;
      }
      i := i + 1;
    }

    var recommendation := KeepPracticing;
    if score >= 4 {
      recommendation := Advanced;
    } else if score >= 2 {
      recommendation := Intermediate;
    } else {
      recommendation := Beginner;
    }

    var doc := Record(name, email, answers, score, recommendation, now);
    effects := effects + [Insert(ResultsCollection, doc, insertOk)];
    if !insertOk {
      response := ServerError(InsertFailed);
      return;
    }
    var mail := Mail(email, name, Subject(score), score, recommendation);
    effects := effects + [Send(mail, sendOk)];
    if !sendOk {
      response := ServerError(SendFailed);
      return;
    }
    response := Response(200, Scored(score, recommendation));
  }

  // ---------------------------------------------------------------------------
  // Properties of the score

  lemma MatchSetStep(answers: Value, n: nat)
    requires !Nullish(answers) && 0 < n <= |Key|
    ensures MatchSet(answers, n)
         == MatchSet(answers, n - 1) + (if Matches(answers, n - 1) then {n - 1} else {})
    ensures n - 1 !in MatchSet(answers, n - 1)
  {
  }

  lemma {:induction false} CountIsMatchSetSize(answers: Value, n: nat)
    requires !Nullish(answers) && n <= |Key|
    ensures CountUpTo(answers, n) == |MatchSet(answers, n)|
  {
    if n == 0 {
      assert MatchSet(answers, 0) == {};
    } else {
      CountIsMatchSetSize(answers, n - 1);
      MatchSetStep(answers, n);
    }
  }

  /** The score is the number of key positions whose answer is strictly equal to
      the key entry. */
  lemma ScoreCountsMatches(answers: Value)
    requires !Nullish(answers)
    ensures Score(answers) == |set i: nat | i < |Key| && Matches(answers, i)|
  {
    CountIsMatchSetSize(answers, |Key|);
  }

  lemma {:induction false} CountAllIff(answers: Value, n: nat)
    requires !Nullish(answers) && n <= |Key|
    ensures CountUpTo(answers, n) == n <==> forall i: nat :: i < n ==> Matches(answers, i)
  {
    if n > 0 {
      CountAllIff(answers, n - 1);
    }
  }

  lemma {:induction false} CountNoneIff(answers: Value, n: nat)
    requires !Nullish(answers) && n <= |Key|
    ensures CountUpTo(answers, n) == 0 <==> forall i: nat :: i < n ==> !Matches(answers, i)
  {
    if n > 0 {
      CountNoneIff(answers, n - 1);
    }
  }

  /** Full marks exactly when every position matches; zero exactly when none does. */
  lemma ScoreExtremes(answers: Value)
    requires !Nullish(answers)
    ensures Score(answers) == |Key| <==> forall i: nat :: i < |Key| ==> Matches(answers, i)
    ensures Score(answers) == 0 <==> forall i: nat :: i < |Key| ==> !Matches(answers, i)
  {
    CountAllIff(answers, |Key|);
    CountNoneIff(answers, |Key|);
  }

  lemma {:induction false} CountMonotone(a: Value, b: Value, n: nat)
    requires !Nullish(a) && !Nullish(b) && n <= |Key|
    requires forall i: nat :: i < n && Matches(a, i) ==> Matches(b, i)
    ensures CountUpTo(a, n) <= CountUpTo(b, n)
  {
    if n > 0 {
      CountMonotone(a, b, n - 1);
    }
  }

  /** Matching at more positions never lowers the score. */
  lemma ScoreMonotone(a: Value, b: Value)
    requires !Nullish(a) && !Nullish(b)
    requires forall i: nat :: i < |Key| && Matches(a, i) ==> Matches(b, i)
    ensures Score(a) <= Score(b)
  {
    CountMonotone(a, b, |Key|);
  }

  lemma {:induction false} CountReadsOnlyPrefix(a: Value, b: Value, n: nat)
    requires !Nullish(a) && !Nullish(b) && n <= |Key|
    requires forall i: nat :: i < n ==> Index(a, i) == Index(b, i)
    ensures CountUpTo(a, n) == CountUpTo(b, n)
  {
    if n > 0 {
      CountReadsOnlyPrefix(a, b, n - 1);
    }
  }

  /** Only `answers[0]` to `answers[4]` are read: anything past the fifth entry
      is ignored. */
  lemma ExtraEntriesIgnored(elems: seq<Value>, extra: seq<Value>)
    requires |elems| >= |Key|
    ensures Score(Arr(elems + extra)) == Score(Arr(elems))
    ensures Score(Arr(elems)) == Score(Arr(elems[..|Key|]))
  {
    CountReadsOnlyPrefix(Arr(elems + extra), Arr(elems), |Key|);
    CountReadsOnlyPrefix(Arr(elems), Arr(elems[..|Key|]), |Key|);
  }

  /** An object whose keys "0" to "4" hold the entries of a five-element array
      scores exactly as that array: `answers[i]` reads the property named by the
      decimal text of `i`. */
  lemma ObjectScoresLikeArray(elems: seq<Value>)
    requires |elems| == |Key|
    ensures Score(Obj(map["0" := elems[0], "1" := elems[1], "2" := elems[2],
                          "3" := elems[3], "4" := elems[4]]))
         == Score(Arr(elems))
  {
    var o := Obj(map["0" := elems[0], "1" := elems[1], "2" := elems[2],
                     "3" := elems[3], "4" := elems[4]]);
    forall i: nat | i < |Key|
      ensures Index(o, i) == Index(Arr(elems), i)
    {
      assert DecimalString(i) == [DigitChar(i)];
    }
    CountReadsOnlyPrefix(o, Arr(elems), |Key|);
  }

  lemma {:induction false} CountShortArray(elems: seq<Value>, n: nat)
    requires n <= |Key|
    ensures CountUpTo(Arr(elems), n) <= |elems|
  {
    if n > 0 {
      CountShortArray(elems, n - 1);
      if n - 1 >= |elems| {
        assert !Matches(Arr(elems), n - 1);
      }
      if |elems| < n {
        CountShortArray(elems, |elems|);
        CountTail(elems, n);
      }
    }
  }

  lemma {:induction false} CountTail(elems: seq<Value>, n: nat)
    requires |elems| <= n <= |Key|
    ensures CountUpTo(Arr(elems), n) == CountUpTo(Arr(elems), |elems|)
  {
    if n > |elems| {
      CountTail(elems, n - 1);
      assert !Matches(Arr(elems), n - 1);
    }
  }

  /** A short array scores at most its length: reading past its end gives
      `undefined`, which equals no key entry. */
  lemma ShortArrayBound(elems: seq<Value>)
    ensures Score(Arr(elems)) <= |elems|
  {
    CountShortArray(elems, |Key|);
  }

  /** An entry that is not a number never scores; if no entry read is a number,
      the score is zero. This covers nulls, strings and answers that are a string,
      a number or a boolean rather than an array. */
  lemma NoNumbersScoreZero(answers: Value)
    requires !Nullish(answers)
    requires forall i: nat :: i < |Key| ==> !Index(answers, i).Num?
    ensures Score(answers) == 0
  {
    ScoreExtremes(answers);
  }

  /** An empty array is truthy, so it passes validation, and it scores nothing. */
  lemma EmptyAnswersScoreZero()
    ensures Truthy(Arr([])) && Score(Arr([])) == 0
  {
    ShortArrayBound([]);
  }

  lemma {:induction false} CountChangeOne(a: Value, b: Value, j: nat, n: nat)
    requires !Nullish(a) && !Nullish(b) && j < n <= |Key|
    requires forall i: nat :: i < |Key| && i != j ==> Index(a, i) == Index(b, i)
    ensures CountUpTo(b, n) - CountUpTo(a, n)
         == (if Matches(b, j) then 1 else 0) - (if Matches(a, j) then 1 else 0)
  {
    if n - 1 == j {
      CountReadsOnlyPrefix(a, b, j);
    } else {
      CountChangeOne(a, b, j, n - 1);
    }
  }

  /** Setting one non-matching answer to the key value raises the score by
      exactly one. */
  lemma FixOneRaisesByOne(elems: seq<Value>, j: nat)
    requires j < |Key| && j < |elems|
    requires !Matches(Arr(elems), j)
    ensures Score(Arr(elems[j := Num(Key[j] as real)])) == Score(Arr(elems)) + 1
  {
    CountChangeOne(Arr(elems), Arr(elems[j := Num(Key[j] as real)]), j, |Key|);
  }

  /** Changing one matching answer to anything else lowers the score by exactly
      one. */
  lemma BreakOneLowersByOne(elems: seq<Value>, j: nat, v: Value)
    requires j < |Key| && j < |elems|
    requires Matches(Arr(elems), j) && !StrictEqualsNumber(v, Key[j] as real)
    ensures Score(Arr(elems[j := v])) == Score(Arr(elems)) - 1
  {
    CountChangeOne(Arr(elems), Arr(elems[j := v]), j, |Key|);
  }

  // ---------------------------------------------------------------------------
  // Properties of a whole request

  /** A body missing `name`, `email` or `answers` (or holding a falsy value
      there) is answered 400 "Missing fields" and nothing is stored or sent; and
      a 400 arises only that way. */
  lemma RejectionHasNoEffects(body: Option<Value>, now: int, insertOk: bool, sendOk: bool)
    ensures var x := Handle(body, now, insertOk, sendOk);
      (x.response.status == 400 <==>
        body.Some? && !Nullish(body.value) && !Accepted(body.value))
    ensures var x := Handle(body, now, insertOk, sendOk);
      x.response.status == 400 ==>
        x.response.reply == Failed(MissingFields) && x.effects == []
  {
  }

  /** The success rule: a 200 exactly when the body is accepted and both the
      insert and the send succeed. The trace is then one insert followed by one
      email to the submitted address; the stored and mailed score and
      recommendation are the returned ones, and the score is the match count. */
  lemma SuccessShape(body: Option<Value>, now: int, insertOk: bool, sendOk: bool)
    ensures var x := Handle(body, now, insertOk, sendOk);
      (x.response.status == 200 <==>
        body.Some? && !Nullish(body.value) && Accepted(body.value) && insertOk && sendOk)
    ensures var x := Handle(body, now, insertOk, sendOk);
      x.response.status == 200 ==>
        var answers := Get(body.value, "answers");
        var score := x.response.reply.score;
        var recommendation := x.response.reply.recommendation;
        && score == Score(answers)
        && recommendation == Recommendation(score)
        && |x.effects| == 2
        && x.effects[0] == Insert(ResultsCollection,
             Record(Get(body.value, "name"), Get(body.value, "email"), answers,
                    score, recommendation, now), true)
        && x.effects[1].Send? && x.effects[1].succeeded
        && x.effects[1].mail.to == Get(body.value, "email")
        && x.effects[1].mail.subject == Subject(score)
        && x.effects[1].mail.score == score
        && x.effects[1].mail.recommendation == recommendation
  {
  }

  /** If the insert throws, no email is attempted and the answer is 500. If the
      email throws after a successful insert, the record stays stored and the
      answer is still 500. */
  lemma DownstreamFailures(body: Value, now: int, insertOk: bool, sendOk: bool)
    requires !Nullish(body) && Accepted(body)
    ensures var x := Handle(Some(body), now, insertOk, sendOk);
      !insertOk ==>
        x.response == ServerError(InsertFailed)
        && |x.effects| == 1 && !x.effects[0].succeeded
    ensures var x := Handle(Some(body), now, insertOk, sendOk);
      insertOk && !sendOk ==>
        x.response == ServerError(SendFailed)
        && |x.effects| == 2 && x.effects[0].succeeded && x.effects[0].doc == RecordFor(body, now)
        && !x.effects[1].succeeded
  {
  }

  /** The subject embeds the score as `${score}/5`. */
  lemma SubjectEmbedsScore(score: nat)
    requires score <= |Key|
    ensures Subject(score) == "Your quiz result — " + [DigitChar(score)] + "/5"
  {
  }

  /** Nothing is deduplicated: the same accepted body submitted twice stores two
      records and sends two emails. */
  lemma NoDeduplication(body: Value, t1: int, t2: int)
    requires !Nullish(body) && Accepted(body)
    ensures var trace := Handle(Some(body), t1, true, true).effects
                       + Handle(Some(body), t2, true, true).effects;
      |trace| == 4 && trace[0].Insert? && trace[2].Insert?
      && trace[0].succeeded && trace[2].succeeded
      && trace[0].doc == RecordFor(body, t1) && trace[2].doc == RecordFor(body, t2)
      && trace[0].doc.(createdAt := t2) == trace[2].doc
      && trace[1].Send? && trace[3].Send? && trace[1].succeeded && trace[3].succeeded
      && trace[1].mail == trace[3].mail
  {
  }

  // ---------------------------------------------------------------------------
  // Worked examples

  function Submission(answers: seq<real>): Value {
    Obj(map["name" := Str("Ada"), "email" := Str("ada@example.com"),
            "answers" := Arr(seq(|answers|, i requires 0 <= i < |answers| => Num(answers[i])))])
  }

  /** The key itself scores 5/5 and gets the advanced tier. */
  lemma PerfectExample(now: int)
    ensures Handle(Some(Submission([1.0, 1.0, 0.0, 2.0, 3.0])), now, true, true).response
         == Response(200, Scored(5, Advanced))
  {
    var answers := Get(Submission([1.0, 1.0, 0.0, 2.0, 3.0]), "answers");
    assert answers.elems == [Num(1.0), Num(1.0), Num(0.0), Num(2.0), Num(3.0)];
    ScoreExtremes(answers);
  }

  /** All zeros match only the third key entry: 1/5 and the beginner tier. */
  lemma ZerosExample(now: int)
    ensures Handle(Some(Submission([0.0, 0.0, 0.0, 0.0, 0.0])), now, true, true).response
         == Response(200, Scored(1, Beginner))
  {
    var answers := Get(Submission([0.0, 0.0, 0.0, 0.0, 0.0]), "answers");
    assert answers.elems == [Num(0.0), Num(0.0), Num(0.0), Num(0.0), Num(0.0)];
    assert CountUpTo(answers, 5) == 1;
  }

  /** An empty answers array is accepted and scores 0 with the beginner tier. */
  lemma EmptyAnswersExample(now: int)
    ensures Handle(Some(Submission([])), now, true, true).response
         == Response(200, Scored(0, Beginner))
  {
    EmptyAnswersScoreZero();
  }
}
