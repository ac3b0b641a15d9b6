/** The relational store the handlers query, held in memory: the question
    table, the category table and the id sequence of the question table. */
module Db {
  import opened Questions
  import opened Categories

  class Store {
    var questions: seq<Question>
    var categories: seq<Category>
    /** The next value of the question id sequence. */
    var nextId: int

    /** Rows come back in id order, ids are unique, and the sequence is
        ahead of every id handed out. */
    ghost predicate Valid()
      reads this
    {
      && IdsAscending(questions)
      && CategoryIdsAscending(categories)
      && forall q :: q in questions ==> q.id < nextId
    }

    constructor (questions: seq<Question>, categories: seq<Category>, nextId: int)
      requires IdsAscending(questions) && CategoryIdsAscending(categories)
      requires forall q :: q in questions ==> q.id < nextId
      ensures Valid()
      ensures this.questions == questions && this.categories == categories && this.nextId == nextId
    {
      this.questions := questions;
      this.categories := categories;
      this.nextId := nextId;
    }

    /** `Question(...).insert()`: a new row takes the next id of the sequence. */
    method Insert(question: string, answer: string, category: int, difficulty: int) returns (q: Question)
      requires Valid()
      modifies this
      ensures Valid()
      ensures q == Question(old(nextId), question, answer, category, difficulty)
      ensures !HasId(old(questions), q.id)
      ensures questions == old(questions) + [q]
      ensures categories == old(categories) && nextId == old(nextId) + 1
    {
      q := Question(nextId, question, answer, category, difficulty);
      assert forall i :: 0 <= i < |questions| ==> questions[i] in questions;
      questions := questions + [q];
      nextId := nextId + 1;
    }

    /** `question.delete()` on the row at position `i`. */
    method DeleteAt(i: nat)
      requires Valid()
      requires i < |questions|
      modifies this
      ensures Valid()
      ensures questions == Without(old(questions), old(questions)[i].id)
      ensures questions == old(questions)[..i] + old(questions)[i + 1..]
      ensures categories == old(categories) && nextId == old(nextId)
    {
      WithoutAtGone(questions, i);
      WithoutAt(questions, i);
      questions := questions[..i] + questions[i + 1..];
    }
  }
}
