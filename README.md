# Trivia service core, modelled in Dafny

A model of the decision logic of the trivia web service in
`backend/flaskr/__init__.py`. The service lists categories and questions
ten to a page, deletes a question, searches or creates a question on one
endpoint, and picks a not-yet-asked quiz question from a category. The
relational store becomes an in-memory `Db.Store` object. It holds the
question rows in id order, the category rows in id order, and the next
value of the question id sequence. Every handler becomes a method that
returns an `Outcome`. That is either the success body or the status the
request aborts with. `Errors.Envelope` gives the JSON body sent for that
status.

Modules, one per component:

- `Questions` (questions.dfy): the records, order-preserving selection, lookup by id and removal by id.
- `Categories` (categories.dfy): the `{id: type}` dictionary and the loop that fills it.
- `Pagination` (pagination.dfy): `paginate_questions`, with Python slice semantics written out, negative bounds included.
- `Search` (search.dfy): `ILIKE '%term%'` as a LIKE pattern matcher with ASCII case folding.
- `QuizSelection` (quiz.dfy): the candidate pool and the loop that collects the ids not asked yet.
- `Errors` (errors.dfy): the four error handlers.
- `Db` (db.dfy): the store class, with insert and delete.
- `Flaskr` (flaskr.dfy): the six route handlers, with the search branch of `post_question` split out as `SearchQuestions`.

Where the service's documented API and the code differ, the model follows the code:

- Deleting an id that does not exist gives 422, not 404. The `abort(404)` is raised inside a `try` whose bare `except` turns it into `abort(422)`. The project's own test (backend/test_flaskr.py:88-94) expects 422.
- The search term is put into the LIKE pattern without escaping, so it is not a plain substring search. In the term, `%` matches any run of characters, `_` matches one character, and `\` quotes the next character. `Search.PlainSearchIsContainment` proves that a term without these characters gives case-insensitive substring containment. `Search.PercentMatchesEverything` proves that the term `%` returns every question.
- Creating a question needs the four fields to be truthy, not merely present. An empty string, a category of 0 or a difficulty of 0 gives 400.
- A quiz request without `previous_questions` fails with 422 only when the candidate pool has at least one question. An empty pool never reaches the membership test, so the answer is `question: None`.

## Model

| member | source | states |
|---|---|---|
| `Questions.Select` | backend/flaskr/__init__.py:141 | a filtered query returns exactly the rows that satisfy the filter, and never more rows than the table |
| `Questions.Find` | backend/flaskr/__init__.py:81 | `one_or_none()` by id finds a row carrying that id, and finds none exactly when no row has it |
| `Questions.SelectAscending` | backend/flaskr/__init__.py:112 | a filtered query over rows in id order is still in id order |
| `Questions.InCategoryExact` | backend/flaskr/__init__.py:141 | the category filter keeps exactly the questions of that category, in id order |
| `Questions.WithoutAt` | backend/flaskr/__init__.py:85 | deleting a stored id removes exactly that row and leaves every other row in place; the table shrinks by one; the id is gone |
| `Questions.WithoutAbsent` | backend/flaskr/__init__.py:81-83 | removing an id that is not stored leaves the table as it was |
| `Categories.CategoryMapKeys` | backend/flaskr/__init__.py:44-46 | the dictionary's keys are exactly the category ids |
| `Categories.CategoryMapLast` | backend/flaskr/__init__.py:44-46 | a key maps to the label of the last category with that id, because a later assignment overwrites an earlier one |
| `Categories.CategoryMapSize` | backend/flaskr/__init__.py:42-46 | with ids unique, the dictionary has one entry per category |
| `Categories.CategoryMapOfAscending` | backend/flaskr/__init__.py:42-46 | with ids unique, every category is listed under its own id with its own label |
| `Categories.BuildCategoryMap` | backend/flaskr/__init__.py:44-46 | the loop leaves the dictionary that assigning every category in order gives |
| `Pagination.SliceBound` | backend/flaskr/__init__.py:17 | a slice bound is clamped into [0, len], and a bound already in range is kept |
| `Pagination.PageAtMostTen` | backend/flaskr/__init__.py:9-19 | no page, whatever its number (negative ones included), holds more than ten questions |
| `Pagination.PageWindow` | backend/flaskr/__init__.py:13-17 | for page >= 1 the page is the selection's elements from (page-1)*10 on, in order; it holds min(10, len - start) of them, or none past the end |
| `Pagination.PageEmptyIff` | backend/flaskr/__init__.py:13-17 | for page >= 1 the page is empty exactly when (page-1)*10 >= len |
| `Pagination.EveryQuestionOnItsPage` | backend/flaskr/__init__.py:11-19 | the element at position j is shown at position j % 10 of page j / 10 + 1, so no element is skipped |
| `Pagination.PageZeroEmpty` | backend/flaskr/__init__.py:13-17 | page 0 is always empty |
| `Pagination.PageMembers` | backend/flaskr/__init__.py:16-17 | a page holds only elements of the selection |
| `Search.EndsInPercentIsWellFormed` | backend/flaskr/__init__.py:112 | any LIKE pattern that ends in `%` is accepted by the database |
| `Search.SearchPatternWellFormed` | backend/flaskr/__init__.py:112 | the pattern `'%{}%'.format(term)` is well formed for every term |
| `Search.PlainTokens` | backend/flaskr/__init__.py:112 | a term without `%`, `_` or `\` is read as literal characters |
| `Search.LiteralsThenRun` | backend/flaskr/__init__.py:112 | literal characters followed by `%` match exactly the texts that start with those characters, ignoring case |
| `Search.LeadingRun` | backend/flaskr/__init__.py:112 | a leading `%` lets the rest of the pattern match any suffix of the text |
| `Search.PlainSearchIsContainment` | backend/flaskr/__init__.py:112 | for a term without wildcards, `ILIKE '%term%'` holds exactly when the text contains the term, ignoring case |
| `Search.SearchPlainTerm` | backend/flaskr/__init__.py:112-113 | for a term without wildcards, the search returns exactly the stored questions containing the term, ignoring case, in id order |
| `Search.PercentMatchesEverything` | backend/flaskr/__init__.py:112 | the term `%` returns every stored question |
| `QuizSelection.PoolExact` | backend/flaskr/__init__.py:161-164 | category id 0 gives every question; any other id gives exactly the questions of that category; in id order |
| `QuizSelection.AvailableExact` | backend/flaskr/__init__.py:166-169 | an id is available exactly when a pool question carries it and it is not among the previous questions |
| `QuizSelection.AvailableAscending` | backend/flaskr/__init__.py:166-169 | over a pool in id order, the available ids keep that order and none repeats |
| `QuizSelection.AvailableIds` | backend/flaskr/__init__.py:166-169 | the loop collects the pool ids that are not among the previous questions, in pool order |
| `QuizSelection.AvailableIsFound` | backend/flaskr/__init__.py:177-183 | re-fetching an available id finds a question with that id; it was not asked before and is in the requested category |
| `Errors.EnvelopeReportsItsCode` | backend/flaskr/__init__.py:193-223 | every error body has `success` false and carries its own status code, and that code selects the handler that built it |
| `Errors.HandlerForExact` | backend/flaskr/__init__.py:193-223 | only 400, 404, 405 and 422 have a handler, and each handler answers its own code |
| `Errors.EnvelopesDistinct` | backend/flaskr/__init__.py:193-223 | different failures have different codes and different messages |
| `Db.Store.Insert` | backend/flaskr/__init__.py:125-126 | an insert appends one row whose id is new and comes from the sequence; the other rows and the id order are kept |
| `Db.Store.DeleteAt` | backend/flaskr/__init__.py:85 | a delete removes exactly the row with that id and keeps the rest in order |
| `Flaskr.GetCategories` | backend/flaskr/__init__.py:40-51 | succeeds with a dictionary whose keys are exactly the category ids, each mapped to its label |
| `Flaskr.GetQuestions` | backend/flaskr/__init__.py:55-74 | an empty page gives 404; for page >= 1 that happens exactly when the page starts past the end; otherwise the reply holds at most ten questions, `total_questions` is the whole table's size, and the category dictionary is included |
| `Flaskr.DeleteQuestion` | backend/flaskr/__init__.py:78-92 | succeeds exactly when the id is stored and the delete does not fail; then only that question is gone; otherwise 422 with the table unchanged |
| `Flaskr.SearchQuestions` | backend/flaskr/__init__.py:109-121 | returns the matching questions in id order with `total_questions` equal to their count, or 422 on a store error; for a term without wildcards, the matches are exactly the questions containing the term, ignoring case |
| `Flaskr.PostQuestion` | backend/flaskr/__init__.py:98-135 | a truthy `searchTerm` searches and changes nothing; otherwise four truthy fields insert exactly one question with a fresh id, or give 422 unchanged on a store error; otherwise 400 with the store unchanged |
| `Flaskr.GetQuestionsByCategory` | backend/flaskr/__init__.py:139-152 | an empty page gives 404, which for page >= 1 happens exactly when the page starts past the end of the category's questions; otherwise at most ten questions, all of that category, with `total_questions` the category's size |
| `Flaskr.Quiz` | backend/flaskr/__init__.py:154-187 | a store read error or a missing category id gives 422; without previous questions the reply is `None` for an empty pool and 422 otherwise; with previous questions given, the reply is `None` exactly when no id is available, and otherwise a stored question whose id is available: not asked before and in the requested category |

## Left out

- HTTP routing, `request`/`jsonify`, `CORS(...)` and the `after_request` headers are framework plumbing. The 405 envelope is modelled, but the routing that produces 405 is not.
- SQLAlchemy, `setup_db` and the models module are not part of this model. The store is in memory. A store error inside a handler's `try` (the search, the insert, the delete, or the quiz's reads) is the `fail` parameter. A failing read in the listing handlers would escape as a 500 and is not modelled.
- Queries without `order_by` (the category filter and `Question.query.all()`) are modelled as returning rows in id order.
- `random.choice` is modelled as an arbitrary choice among the available ids. Uniformity cannot be stated.
- `print(random_idx)` is left out because it is output only.
- Flaskr.Quiz: the path where the re-fetch of the chosen id finds nothing is not modelled. That would need a concurrent delete. A single-threaded store always finds the id (`QuizSelection.AvailableIsFound`).
- String/int coercion is not modelled. The tests send `quiz_category.id` as `'6'`. Category ids are integers here. JSON values of other types in the request bodies (a numeric `searchTerm`, for one) are not modelled.
- A request without a JSON body is not modelled. `body.get` would raise outside any `try`.
- ILIKE case folding covers only ASCII letters. Locale-dependent `lower()` is not modelled.
- Concurrency between requests is left out.
