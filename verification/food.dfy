/** Food placement (`createFood`, script.js:83-96).

    The source draws a uniformly random cell and, when it lies on the snake,
    starts over. Randomness is not modelled: the cells the random generator
    would produce are a parameter, one per attempt, each already in range
    because `Math.floor(Math.random() * tileCount)` lies in [0, tileCount).
    When every draw in the stream lands on the snake the source would keep
    retrying; the model answers `None` for "not placed within these draws".
 */
module Food {
  import opened Board

  datatype Option<T> = None | Some(value: T)

  predicate DrawsInRange(n: int, draws: seq<Cell>) {
    forall i :: 0 <= i < |draws| ==> InBounds(draws[i], n)
  }

  /** One attempt per draw: a draw on the snake is discarded and the next
      one tried; the first draw off the snake becomes the food. */
  function CreateFood(n: int, snake: seq<Cell>, draws: seq<Cell>): (r: Option<Cell>)
    requires DrawsInRange(n, draws)
    ensures r.Some? ==> FreeCell(n, snake, r.value)
    decreases |draws|
  {
    if |draws| == 0 then None
    else if draws[0] in snake then CreateFood(n, snake, draws[1..])
    else Some(draws[0])
  }

  /** Placement succeeds exactly when some draw is off the snake, and then
      it picks the first such draw: every earlier draw was on the snake. */
  lemma {:induction false} CreateFoodFirstFree(n: int, snake: seq<Cell>, draws: seq<Cell>)
    requires DrawsInRange(n, draws)
    ensures CreateFood(n, snake, draws).Some? <==> exists i :: 0 <= i < |draws| && draws[i] !in snake
    ensures CreateFood(n, snake, draws).Some? ==>
      exists i :: 0 <= i < |draws| && draws[i] == CreateFood(n, snake, draws).value
                  && forall j :: 0 <= j < i ==> draws[j] in snake
    decreases |draws|
  {
    if |draws| > 0 && draws[0] in snake {
      var rest := draws[1..];
      assert DrawsInRange(n, rest) by {
        forall i | 0 <= i < |rest| ensures InBounds(rest[i], n) {
          assert rest[i] == draws[i + 1];
        }
      }
      CreateFoodFirstFree(n, snake, rest);
      var r := CreateFood(n, snake, draws);
      assert r == CreateFood(n, snake, rest);
      if r.Some? {
        var i :| 0 <= i < |rest| && rest[i] == r.value
                 && forall j :: 0 <= j < i ==> rest[j] in snake;
        assert draws[i + 1] == r.value;
        forall j | 0 <= j < i + 1 ensures draws[j] in snake {
          if j > 0 {
            assert draws[j] == rest[j - 1];
          }
        }
        assert draws[i + 1] !in snake;
      } else {
        forall i | 0 <= i < |draws| ensures draws[i] in snake {
          if i > 0 {
            assert draws[i] == rest[i - 1];
          }
        }
      }
    }
  }

  /** Extra draws after a successful placement are never consulted. */
  lemma {:induction false} UnusedDraws(n: int, snake: seq<Cell>, draws: seq<Cell>, more: seq<Cell>)
    requires DrawsInRange(n, draws) && DrawsInRange(n, more)
    requires CreateFood(n, snake, draws).Some?
    ensures DrawsInRange(n, draws + more)
    ensures CreateFood(n, snake, draws + more) == CreateFood(n, snake, draws)
    decreases |draws|
  {
    var all := draws + more;
    assert DrawsInRange(n, all) by {
      forall i | 0 <= i < |all| ensures InBounds(all[i], n) {
        if i < |draws| {
          assert all[i] == draws[i];
        } else {
          assert all[i] == more[i - |draws|];
        }
      }
    }
    assert all[0] == draws[0];
    if draws[0] in snake {
      var rest := draws[1..];
      assert DrawsInRange(n, rest) by {
        forall i | 0 <= i < |rest| ensures InBounds(rest[i], n) {
          assert rest[i] == draws[i + 1];
        }
      }
      assert all[1..] == rest + more;
      UnusedDraws(n, snake, rest, more);
    }
  }
}
