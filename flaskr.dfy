/** The request handlers of the service (`create_app`'s routes), over the
    in-memory store. A handler's `Outcome` is either the success body or the
    status it aborts with; `Errors.Envelope` gives the body of the latter. */
module Flaskr {
  import opened Questions
  import opened Categories
  import opened Pagination
  import opened Search
  import opened QuizSelection
  import opened Errors
  import opened Db

  /** Success bodies (each also carries `"success": True`). */
  datatype Reply =
    | CategoryList(byId: map<int, string>)
    | QuestionList(questions: seq<Question>, totalQuestions: nat,
                   categories: Option<map<int, string>>, currentCategory: Option<int>)
    | Done
    | QuizQuestion(question: Option<Question>)

  datatype Outcome = Ok(reply: Reply) | Fail(status: Status)

  /** The JSON body of `POST /questions`; a key that is absent is None. */
  datatype PostBody = PostBody(
    question: Option<string>, answer: Option<string>,
    difficulty: Option<int>, category: Option<int>,
    searchTerm: Option<string>)

  /** The JSON body of `POST /quizzes`. `categoryId` is None when
      `quiz_category` is absent or has no `id`; `previous` is None when
      `previous_questions` is absent. */
  datatype QuizBody = QuizBody(categoryId: Option<int>, previous: Option<seq<int>>)

  /** Python truthiness of an optional string / int field. */
  predicate TruthyText(v: Option<string>) { v.Some? && v.value != "" }
  predicate TruthyNumber(v: Option<int>) { v.Some? && v.value != 0 }

  /** GET /api/v1/categories */
  method GetCategories(db: Store) returns (o: Outcome)
    requires db.Valid()
    ensures o.Ok? && o.reply.CategoryList?
    ensures o.reply.byId.Keys == set c | c in db.categories :: c.id
    ensures forall c :: c in db.categories ==> o.reply.byId[c.id] == c.kind
  {
    var m := BuildCategoryMap(db.categories);
    CategoryMapKeys(db.categories);
    CategoryMapOfAscending(db.categories);
    o := Ok(CategoryList(m));
  }

  /** GET /api/v1/questions?page=N */
  method GetQuestions(db: Store, pageArg: Option<int>) returns (o: Outcome)
    requires db.Valid()
    ensures var page := Paginate(db.questions, PageNumber(pageArg));
      o == if page == [] then Fail(NotFound)
           else Ok(QuestionList(page, |db.questions|, Some(CategoryMap(db.categories)), None))
    ensures PageNumber(pageArg) >= 1 ==>
      (o == Fail(NotFound) <==> (PageNumber(pageArg) - 1) * QuestionsPerPage >= |db.questions|)
    ensures o.Ok? ==> |o.reply.questions| <= QuestionsPerPage && o.reply.totalQuestions == |db.questions|
  {
    var questions := db.questions;
    var current := Paginate(questions, PageNumber(pageArg));
    PageAtMostTen(questions, PageNumber(pageArg));
    if PageNumber(pageArg) >= 1 {
      PageEmptyIff(questions, PageNumber(pageArg));
    }
    if |current| == 0 {
      return Fail(NotFound);
    }
    var m := BuildCategoryMap(db.categories);
    o := Ok(QuestionList(current, |questions|, Some(m), None));
  }

  /** DELETE /api/v1/questions/<id>. `fail` stands for the database
      rejecting the delete. A missing id aborts with 404 inside the `try`,
      and the bare `except` turns that into 422. */
  method DeleteQuestion(db: Store, id: int, fail: bool) returns (o: Outcome)
    requires db.Valid()
    modifies db
    ensures db.Valid()
    ensures db.categories == old(db.categories) && db.nextId == old(db.nextId)
    ensures o.Ok? <==> old(HasId(db.questions, id)) && !fail
    ensures o.Ok? ==>
      && o.reply == Done
      && db.questions == Without(old(db.questions), id)
      && |db.questions| == |old(db.questions)| - 1
      && !HasId(db.questions, id)
    ensures o.Fail? ==> o.status == Unprocessable && db.questions == old(db.questions)
  {
    match Find(db.questions, id)
    case None =>
      o := Fail(Unprocessable);
    case Some(i) =>
      if fail {
        o := Fail(Unprocessable);
      } else {
        WithoutAtGone(db.questions, i);
        db.DeleteAt(i);
        o := Ok(Done);
      }
  }

  /** The search branch of POST /api/v1/questions. `fail` stands for the
      query raising. */
  method SearchQuestions(db: Store, term: string, fail: bool) returns (o: Outcome)
    requires db.Valid()
    ensures fail ==> o == Fail(Unprocessable)
    ensures !fail ==>
      && SearchResults(db.questions, term).Some?
      && var found := SearchResults(db.questions, term).value;
         o == Ok(QuestionList(found, |found|, None, None))
    ensures !fail ==> IdsAscending(o.reply.questions)
    ensures !fail && PlainTerm(term) ==>
      forall q :: q in o.reply.questions <==> q in db.questions && ContainsIgnoringCase(q.question, term)
  {
    if fail {
      return Fail(Unprocessable);
    }
    SearchPatternWellFormed(term);
    var found := SearchResults(db.questions, term).value;
    var toks := Tokens(SearchPattern(term)).value;
    SelectAscending(db.questions, (q: Question) => Matches(q.question, toks));
    if PlainTerm(term) {
      SearchPlainTerm(db.questions, term);
    }
    o := Ok(QuestionList(found, |found|, None, None));
  }

  /** POST /api/v1/questions: a truthy `searchTerm` searches; otherwise
      four truthy fields insert a question; otherwise 400. `fail` stands for
      the database rejecting the search or the insert. */
  method PostQuestion(db: Store, body: PostBody, fail: bool) returns (o: Outcome)
    requires db.Valid()
    modifies db
    ensures db.Valid()
    ensures db.categories == old(db.categories)
    ensures TruthyText(body.searchTerm) ==>
      && db.questions == old(db.questions) && db.nextId == old(db.nextId)
      && (fail ==> o == Fail(Unprocessable))
      && (!fail ==>
            && SearchResults(db.questions, body.searchTerm.value).Some?
            && var found := SearchResults(db.questions, body.searchTerm.value).value;
               o == Ok(QuestionList(found, |found|, None, None)))
    ensures var create := !TruthyText(body.searchTerm) && TruthyText(body.question) && TruthyText(body.answer)
        && TruthyNumber(body.category) && TruthyNumber(body.difficulty);
      create && !fail ==>
        && o == Ok(Done)
        && db.nextId == old(db.nextId) + 1
        && db.questions == old(db.questions) +
             [Question(old(db.nextId), body.question.value, body.answer.value, body.category.value, body.difficulty.value)]
    ensures var create := !TruthyText(body.searchTerm) && TruthyText(body.question) && TruthyText(body.answer)
        && TruthyNumber(body.category) && TruthyNumber(body.difficulty);
      create && fail ==> o == Fail(Unprocessable) && db.questions == old(db.questions) && db.nextId == old(db.nextId)
    ensures var create := TruthyText(body.question) && TruthyText(body.answer)
        && TruthyNumber(body.category) && TruthyNumber(body.difficulty);
      !TruthyText(body.searchTerm) && !create ==>
        o == Fail(BadRequest) && db.questions == old(db.questions) && db.nextId == old(db.nextId)
  {
    if TruthyText(body.searchTerm) {
      o := SearchQuestions(db, body.searchTerm.value, fail);
    } else if TruthyText(body.question) && TruthyText(body.answer)
      && TruthyNumber(body.category) && TruthyNumber(body.difficulty)
    {
      if fail {
        o := Fail(Unprocessable);
      } else {
        var _ := db.Insert(body.question.value, body.answer.value, body.category.value, body.difficulty.value);
        o := Ok(Done);
      }
    } else {
      o := Fail(BadRequest);
    }
  }

  /** GET /api/v1/categories/<category_id>/questions?page=N */
  method GetQuestionsByCategory(db: Store, categoryId: nat, pageArg: Option<int>) returns (o: Outcome)
    requires db.Valid()
    ensures var selection := InCategory(db.questions, categoryId);
      var page := Paginate(selection, PageNumber(pageArg));
      o == if page == [] then Fail(NotFound)
           else Ok(QuestionList(page, |selection|, None, Some(categoryId)))
    ensures PageNumber(pageArg) >= 1 ==>
      (o == Fail(NotFound) <==>
        (PageNumber(pageArg) - 1) * QuestionsPerPage >= |InCategory(db.questions, categoryId)|)
    ensures o.Ok? ==>
      && |o.reply.questions| <= QuestionsPerPage
      && forall q :: q in o.reply.questions ==> q in db.questions && q.category == categoryId
  {
    var questions := InCategory(db.questions, categoryId);
    var current := Paginate(questions, PageNumber(pageArg));
    PageAtMostTen(questions, PageNumber(pageArg));
    if PageNumber(pageArg) >= 1 {
      PageEmptyIff(questions, PageNumber(pageArg));
    }
    PageMembers(questions, PageNumber(pageArg));
    if |current| == 0 {
      return Fail(NotFound);
    }
    o := Ok(QuestionList(current, |questions|, None, Some(categoryId)));
  }

  /** POST /api/v1/quizzes. The random choice is any available id. `fail`
      stands for a database read inside the `try` raising. Without a
      category id the lookup raises; without `previous_questions` the
      membership test raises as soon as the pool has a question; all of
      these become 422. */
  method Quiz(db: Store, body: QuizBody, fail: bool) returns (o: Outcome)
    requires db.Valid()
    ensures fail ==> o == Fail(Unprocessable)
    ensures body.categoryId.None? ==> o == Fail(Unprocessable)
    ensures !fail && body.categoryId.Some? && body.previous.None? ==>
      o == if Pool(db.questions, body.categoryId.value) == [] then Ok(QuizQuestion(None)) else Fail(Unprocessable)
    ensures !fail && body.categoryId.Some? && body.previous.Some? ==>
      var c, previous := body.categoryId.value, body.previous.value;
      var available := Available(Pool(db.questions, c), previous);
      && o.Ok? && o.reply.QuizQuestion?
      && (o.reply.question.None? <==> available == [])
      && (o.reply.question.Some? ==>
            var q := o.reply.question.value;
            && q in db.questions && q.id in available
            && q.id !in previous && (c == 0 || q.category == c))
  {
    if fail || body.categoryId.None? {
      return Fail(Unprocessable);
    }
    var c := body.categoryId.value;
    var questions := Pool(db.questions, c);
    if body.previous.None? {
      if questions == [] {
        return Ok(QuizQuestion(None));
      }
      return Fail(Unprocessable);
    }
    var previous := body.previous.value;
    var available := AvailableIds(questions, previous);
    if available == [] {
      return Ok(QuizQuestion(None));
    }
    var choice :| 0 <= choice < |available|;
    var pick := available[choice];
    assert pick in available;
    AvailableIsFound(db.questions, c, previous, pick);
    var next := db.questions[Find(db.questions, pick).value];
    o := Ok(QuizQuestion(Some(next)));
  }
}
