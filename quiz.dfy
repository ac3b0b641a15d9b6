/** The question selection of `quiz`: the candidate pool and the ids in it
    that have not been asked yet. */
module QuizSelection {
  import opened Questions

  /** `Question.query.all()` for category id 0, otherwise the questions of
      that category. */
  function Pool(qs: seq<Question>, categoryId: int): seq<Question> {
    if categoryId == 0 then qs else InCategory(qs, categoryId)
  }

  /** Category 0 gives every question, any other id exactly the questions of
      that category; either way in id order. */
  lemma PoolExact(qs: seq<Question>, categoryId: int)
    requires IdsAscending(qs)
    ensures forall q :: q in Pool(qs, categoryId) <==> q in qs && (categoryId == 0 || q.category == categoryId)
    ensures IdsAscending(Pool(qs, categoryId))
  {
    if categoryId != 0 {
      InCategoryExact(qs, categoryId);
    }
  }

  /** `available_questions`: the ids of the pool that are not in `previous`,
      in pool order. */
  function Available(pool: seq<Question>, previous: seq<int>): seq<int> {
    if pool == [] then []
    else
      var last := pool[|pool| - 1];
      Available(pool[..|pool| - 1], previous) + (if last.id in previous then [] else [last.id])
  }

  /** An id is available exactly when some pool question has it and it was
      not asked before. */
  lemma {:induction false} AvailableExact(pool: seq<Question>, previous: seq<int>)
    ensures forall id :: id in Available(pool, previous) <==> HasId(pool, id) && id !in previous
  {
    if pool != [] {
      var init, last := pool[..|pool| - 1], pool[|pool| - 1];
      AvailableExact(init, previous);
      forall id ensures HasId(pool, id) <==> HasId(init, id) || last.id == id {
        if HasId(init, id) {
          var k :| 0 <= k < |init| && init[k].id == id;
          assert pool[k] == init[k];
        }
        if HasId(pool, id) && last.id != id {
          var k :| 0 <= k < |pool| && pool[k].id == id;
          assert init[k] == pool[k];
        }
      }
    }
  }

  ghost predicate StrictlyAscending(ids: seq<int>) {
    forall i, j :: 0 <= i < j < |ids| ==> ids[i] < ids[j]
  }

  /** Over a pool in id order the available ids ascend, so none repeats. */
  lemma {:induction false} AvailableAscending(pool: seq<Question>, previous: seq<int>)
    requires IdsAscending(pool)
    ensures StrictlyAscending(Available(pool, previous))
  {
    if pool != [] {
      var init, last := pool[..|pool| - 1], pool[|pool| - 1];
      AvailableAscending(init, previous);
      AvailableExact(init, previous);
      var front := Available(init, previous);
      forall i | 0 <= i < |front| ensures front[i] < last.id {
        assert front[i] in front;
        var k :| 0 <= k < |init| && init[k].id == front[i];
        assert pool[k] == init[k];
      }
      var ids := Available(pool, previous);
      assert ids == front + (if last.id in previous then [] else [last.id]);
      forall i, j | 0 <= i < j < |ids| ensures ids[i] < ids[j] {
        if j < |front| {
          assert ids[i] == front[i] && ids[j] == front[j];
          assert front[i] < front[j];
        } else {
          assert ids[i] == front[i] && ids[j] == last.id;
          assert front[i] < last.id;
        }
      }
    }
  }

  /** The loop of `quiz` that appends to `available_questions`. */
  method AvailableIds(pool: seq<Question>, previous: seq<int>) returns (ids: seq<int>)
    ensures ids == Available(pool, previous)
  {
    ids := [];
    var i := 0;
    while i < |pool|
      invariant 0 <= i <= |pool|
      invariant ids == Available(pool[..i], previous)
    {
      assert pool[..i + 1][..i] == pool[..i];
      if pool[i].id !in previous {
        ids := ids + [pool[i].id];
      }
      i := i + 1;
    }
    assert pool[..|pool|] == pool;
  }

  /** Re-fetching an available id by `one_or_none()` finds the pool question
      that carries it: one not asked before, in the requested category. */
  lemma AvailableIsFound(qs: seq<Question>, categoryId: int, previous: seq<int>, id: int)
    requires IdsAscending(qs)
    requires id in Available(Pool(qs, categoryId), previous)
    ensures Find(qs, id).Some?
    ensures var q := qs[Find(qs, id).value];
      && q.id == id && id !in previous
      && (categoryId == 0 || q.category == categoryId)
  {
    var pool := Pool(qs, categoryId);
    AvailableExact(pool, previous);
    PoolExact(qs, categoryId);
    var k :| 0 <= k < |pool| && pool[k].id == id;
    assert pool[k] in pool;
    var j :| 0 <= j < |qs| && qs[j] == pool[k];
    var i := Find(qs, id).value;
    assert i == j;
  }
}
