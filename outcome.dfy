/** Values that the plugin's Kotlin code gets from the host: nullable
    references and calls that may throw, and the early-return search
    that every `for` loop of the classifiers and filters performs. */
module Outcomes {

  /** A Kotlin nullable reference. */
  datatype Option<+T> = None | Some(value: T)

  /** The exceptions that can leave the modelled code. */
  datatype Exception =
    | NullPointer   // a `!!` applied to null
    | ClassCast     // an `as` cast to a type the value does not have
    | HostFailure   // anything thrown by a host accessor (for instance a name getter)

  /** The result of a Kotlin call: a returned value or a thrown exception. */
  datatype Outcome<+T> = Value(value: T) | Raised(exception: Exception)

  /** A `for` loop whose body may `return true`, may throw, or falls
      through to the next element; `return false` after the loop.
      `test(x) == Value(false)` means "go on with the next element". */
  function Search<T>(xs: seq<T>, test: T -> Outcome<bool>): Outcome<bool>
  {
    if xs == [] then Value(false)
    else match test(xs[0])
      case Value(true) => Value(true)
      case Value(false) => Search(xs[1..], test)
      case Raised(e) => Raised(e)
  }

  /** The search answers `false` exactly when every element lets it go on. */
  lemma {:induction false} SearchFalse<T>(xs: seq<T>, test: T -> Outcome<bool>)
    ensures Search(xs, test) == Value(false)
        <==> forall i :: 0 <= i < |xs| ==> test(xs[i]) == Value(false)
  {
    if xs != [] {
      SearchFalse(xs[1..], test);
      if test(xs[0]) == Value(false) {
        assert forall i :: 1 <= i < |xs| ==> xs[i] == xs[1..][i - 1];
      }
    }
  }

  /** The search answers `true` exactly when some element answers `true`
      and every element before it lets the search go on. */
  lemma {:induction false} SearchTrue<T>(xs: seq<T>, test: T -> Outcome<bool>)
    ensures Search(xs, test) == Value(true)
        <==> exists i :: 0 <= i < |xs| && test(xs[i]) == Value(true)
                          && forall j :: 0 <= j < i ==> test(xs[j]) == Value(false)
  {
    if xs != [] {
      SearchTrue(xs[1..], test);
      match test(xs[0])
      case Value(true) =>
        assert test(xs[0]) == Value(true);
      case Value(false) =>
        if Search(xs, test) == Value(true) {
          var i :| 0 <= i < |xs[1..]| && test(xs[1..][i]) == Value(true)
                   && forall j :: 0 <= j < i ==> test(xs[1..][j]) == Value(false);
          assert forall j :: 0 <= j < i + 1 ==> test(xs[j]) == Value(false) by {
            forall j | 0 <= j < i + 1 ensures test(xs[j]) == Value(false) {
              if j > 0 { assert xs[j] == xs[1..][j - 1]; }
            }
          }
          assert test(xs[i + 1]) == Value(true);
        }
        if exists i :: 0 <= i < |xs| && test(xs[i]) == Value(true)
                       && forall j :: 0 <= j < i ==> test(xs[j]) == Value(false) {
          var i :| 0 <= i < |xs| && test(xs[i]) == Value(true)
                   && forall j :: 0 <= j < i ==> test(xs[j]) == Value(false);
          assert i > 0;
          assert test(xs[1..][i - 1]) == Value(true);
          assert forall j :: 0 <= j < i - 1 ==> test(xs[1..][j]) == Value(false) by {
            forall j | 0 <= j < i - 1 ensures test(xs[1..][j]) == Value(false) {
              assert xs[1..][j] == xs[j + 1];
            }
          }
        }
      case Raised(e) =>
        assert test(xs[0]) != Value(true) && test(xs[0]) != Value(false);
    }
  }

  /** A search whose test never throws answers `true` exactly when some
      element answers `true`; it never throws either. */
  lemma SearchTotal<T>(xs: seq<T>, test: T -> Outcome<bool>)
    requires forall i :: 0 <= i < |xs| ==> test(xs[i]).Value?
    ensures Search(xs, test).Value?
    ensures Search(xs, test) == Value(true)
        <==> exists i :: 0 <= i < |xs| && test(xs[i]) == Value(true)
  {
    SearchFalse(xs, test);
    SearchTrue(xs, test);
    if exists i :: 0 <= i < |xs| && test(xs[i]) == Value(true) {
      var i :| 0 <= i < |xs| && test(xs[i]) == Value(true);
      // no earlier element answered true: take the first one
      var k := FirstTrue(xs, test, i);
      assert forall j :: 0 <= j < k ==> test(xs[j]) == Value(false);
    } else {
      forall i | 0 <= i < |xs| ensures test(xs[i]) == Value(false) {
        var o := test(xs[i]);
        assert o.Value? && o != Value(true);
        assert o.value == false;
      }
    }
  }

  /** The first index at or below `bound` whose element answers `true`:
      the search stops there with `true`. */
  lemma FirstTrue<T>(xs: seq<T>, test: T -> Outcome<bool>, bound: nat) returns (k: nat)
    requires bound < |xs| && test(xs[bound]) == Value(true)
    requires forall i :: 0 <= i < |xs| ==> test(xs[i]).Value?
    ensures k <= bound && test(xs[k]) == Value(true)
    ensures forall j :: 0 <= j < k ==> test(xs[j]) == Value(false)
    ensures Search(xs, test) == Value(true)
  {
    k := 0;
    while test(xs[k]) != Value(true)
      invariant k <= bound
      invariant forall j :: 0 <= j < k ==> test(xs[j]) == Value(false)
      decreases bound - k
    {
      var o := test(xs[k]);
      assert o.Value? && o.value == false;
      k := k + 1;
    }
    SearchTrue(xs, test);
  }

  /** The search throws exactly when some element throws and every
      element before it lets the search go on; it then throws that
      element's exception. */
  lemma {:induction false} SearchRaised<T>(xs: seq<T>, test: T -> Outcome<bool>, e: Exception)
    ensures Search(xs, test) == Raised(e)
        <==> exists i :: 0 <= i < |xs| && test(xs[i]) == Raised(e)
                          && forall j :: 0 <= j < i ==> test(xs[j]) == Value(false)
  {
    if xs != [] {
      SearchRaised(xs[1..], test, e);
      if test(xs[0]) == Value(false) {
        if Search(xs, test) == Raised(e) {
          var i :| 0 <= i < |xs[1..]| && test(xs[1..][i]) == Raised(e)
                   && forall j :: 0 <= j < i ==> test(xs[1..][j]) == Value(false);
          assert test(xs[i + 1]) == Raised(e);
          assert forall j :: 0 <= j < i + 1 ==> test(xs[j]) == Value(false) by {
            forall j | 0 <= j < i + 1 ensures test(xs[j]) == Value(false) {
              if j > 0 { assert xs[j] == xs[1..][j - 1]; }
            }
          }
        }
        if exists i :: 0 <= i < |xs| && test(xs[i]) == Raised(e)
                       && forall j :: 0 <= j < i ==> test(xs[j]) == Value(false) {
          var i :| 0 <= i < |xs| && test(xs[i]) == Raised(e)
                   && forall j :: 0 <= j < i ==> test(xs[j]) == Value(false);
          assert i > 0;
          assert test(xs[1..][i - 1]) == Raised(e);
          assert forall j :: 0 <= j < i - 1 ==> test(xs[1..][j]) == Value(false) by {
            forall j | 0 <= j < i - 1 ensures test(xs[1..][j]) == Value(false) {
              assert xs[1..][j] == xs[j + 1];
            }
          }
        }
      }
    }
  }
}
