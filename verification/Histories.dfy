/** What happened in a run of steps, told from the state before each step. */
module Histories {

  /**
   * Some step of the run satisfied `begins`, and no later one satisfied `ends`. `at` gives the
   * state that a prefix of the run reaches.
   */
  ghost predicate Since<S, E>(at: seq<E> -> S, events: seq<E>, begins: (S, E) -> bool, ends: (S, E) -> bool) {
    exists n :: 0 <= n < |events| && BeginsAt(at, events, begins, ends, n)
  }

  ghost predicate BeginsAt<S, E>(at: seq<E> -> S, events: seq<E>, begins: (S, E) -> bool, ends: (S, E) -> bool, n: nat)
    requires n < |events|
  {
    && begins(at(events[..n]), events[n])
    && forall m :: n < m < |events| ==> !ends(at(events[..m]), events[m])
  }

  /** Some step of the run satisfied `happens`. */
  ghost predicate Once<S, E>(at: seq<E> -> S, events: seq<E>, happens: (S, E) -> bool) {
    exists n :: 0 <= n < |events| && HappensAt(at, events, happens, n)
  }

  ghost predicate HappensAt<S, E>(at: seq<E> -> S, events: seq<E>, happens: (S, E) -> bool, n: nat)
    requires n < |events|
  {
    happens(at(events[..n]), events[n])
  }

  lemma {:induction false} OnceStep<S, E>(at: seq<E> -> S, events: seq<E>, happens: (S, E) -> bool)
    requires events != []
    ensures
      var earlier, e := events[..|events| - 1], events[|events| - 1];
      Once(at, events, happens) <==> happens(at(earlier), e) || Once(at, earlier, happens)
  {
    var k := |events| - 1;
    forall n | 0 <= n < k ensures HappensAt(at, events, happens, n) <==> HappensAt(at, events[..k], happens, n) {
      assert events[..k][..n] == events[..n];
    }
    assert HappensAt(at, events, happens, k) <==> happens(at(events[..k]), events[k]);
  }

  /** One more step: it begins, or it does not end what began before. */
  lemma {:induction false} SinceStep<S, E>(at: seq<E> -> S, events: seq<E>, begins: (S, E) -> bool, ends: (S, E) -> bool)
    requires events != []
    ensures
      var earlier, e := events[..|events| - 1], events[|events| - 1];
      Since(at, events, begins, ends) <==>
        begins(at(earlier), e) || (Since(at, earlier, begins, ends) && !ends(at(earlier), e))
  {
    var k := |events| - 1;
    var earlier := events[..k];
    forall n | 0 <= n < k
      ensures BeginsAt(at, events, begins, ends, n) <==> BeginsAt(at, earlier, begins, ends, n) && !ends(at(earlier), events[k])
    {
      assert earlier[..n] == events[..n];
      forall m | n < m < k ensures earlier[..m] == events[..m] {}
      if BeginsAt(at, events, begins, ends, n) {
        forall m | n < m < k ensures !ends(at(earlier[..m]), earlier[m]) {
          assert !ends(at(events[..m]), events[m]);
        }
      }
      if BeginsAt(at, earlier, begins, ends, n) && !ends(at(earlier), events[k]) {
        forall m | n < m < |events| ensures !ends(at(events[..m]), events[m]) {
          if m < k {
            assert !ends(at(earlier[..m]), earlier[m]);
          }
        }
      }
    }
    assert BeginsAt(at, events, begins, ends, k) <==> begins(at(earlier), events[k]);
  }
}
