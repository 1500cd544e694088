/**
 * The chained validator of the application layer: a composite that runs an
 * ordered list of validation rules against one input and forwards the error
 * of the first rule that reports one.
 */
module Validators {
  import opened Wrappers

  /**
   * The reference meaning of a rule chain: the error of the first rule that
   * reports one, or no error. A rule is the `validate` operation of one
   * validation object, `None` standing for the source's `undefined`.
   */
  function FirstError<T, E>(rules: seq<T -> Option<E>>, input: T): (r: Option<E>)
    ensures r.None? <==> forall i :: 0 <= i < |rules| ==> rules[i](input).None?
    ensures r.Some? ==> exists k :: IsFirstFailure(rules, input, k) && rules[k](input) == r
  {
    if rules == [] then None
    else if rules[0](input).Some? then
      assert IsFirstFailure(rules, input, 0);
      rules[0](input)
    else
      var r := FirstError(rules[1..], input);
      assert forall i :: 1 <= i < |rules| ==> rules[i] == rules[1..][i - 1];
      assert r.Some? ==> exists k :: IsFirstFailure(rules, input, k) && rules[k](input) == r by {
        if r.Some? {
          var k :| IsFirstFailure(rules[1..], input, k) && rules[1..][k](input) == r;
          assert IsFirstFailure(rules, input, k + 1);
        }
      }
      r
  }

  /** `k` is the lowest index at which a rule reports an error on `input`. */
  ghost predicate IsFirstFailure<T, E>(rules: seq<T -> Option<E>>, input: T, k: int)
  {
    && 0 <= k < |rules|
    && rules[k](input).Some?
    && forall j :: 0 <= j < k ==> rules[j](input).None?
  }

  /** Running `a + b` is running `a`, and running `b` only when `a` found nothing. */
  lemma {:induction false} FirstErrorAppend<T, E>(a: seq<T -> Option<E>>, b: seq<T -> Option<E>>, input: T)
    ensures FirstError(a + b, input) ==
            if FirstError(a, input).Some? then FirstError(a, input) else FirstError(b, input)
  {
    if a == [] {
      assert a + b == b;
    } else {
      assert (a + b)[0] == a[0];
      assert (a + b)[1..] == a[1..] + b;
      FirstErrorAppend(a[1..], b, input);
    }
  }

  /**
   * Short circuit: once a prefix of the chain has reported an error, the
   * rules that follow it are never consulted, so replacing them by any
   * other rules leaves the outcome unchanged.
   */
  lemma ShortCircuit<T, E>(a: seq<T -> Option<E>>, rest: seq<T -> Option<E>>, other: seq<T -> Option<E>>, input: T)
    requires FirstError(a, input).Some?
    ensures FirstError(a + rest, input) == FirstError(a + other, input) == FirstError(a, input)
  {
    FirstErrorAppend(a, rest, input);
    FirstErrorAppend(a, other, input);
  }

  /**
   * A composite is itself a rule, so composites nest; a nested composite at
   * the head of a chain behaves as if its rules were spliced in its place.
   */
  lemma NestedComposite<T, E>(inner: seq<T -> Option<E>>, rest: seq<T -> Option<E>>, input: T)
    ensures FirstError([(x: T) => FirstError(inner, x)] + rest, input) == FirstError(inner + rest, input)
  {
    var head := [(x: T) => FirstError(inner, x)];
    FirstErrorAppend(head, rest, input);
    FirstErrorAppend(inner, rest, input);
    assert head[1..] == [];
  }

  /** The composite: an ordered list of rules fixed at construction. */
  class ValidationComposite<T, E> {
    const validations: seq<T -> Option<E>>

    constructor (validations: seq<T -> Option<E>>)
      ensures this.validations == validations
    {
      this.validations := validations;
    }

    /**
     * Runs the rules in order and returns the first error. `evaluated` counts
     * the rules that were invoked: all of them when none fails, and exactly
     * up to and including the first failing one otherwise.
     */
    method Validate(input: T) returns (error: Option<E>, ghost evaluated: nat)
      ensures error == FirstError(validations, input)
      ensures error.None? ==> evaluated == |validations|
      ensures error.Some? ==>
                (IsFirstFailure(validations, input, evaluated - 1) && validations[evaluated - 1](input) == error)
    {
      evaluated := 0;
      for i := 0 to |validations|
        invariant evaluated == i
        invariant forall j :: 0 <= j < i ==> validations[j](input).None?
        invariant FirstError(validations, input) == FirstError(validations[i..], input)
      {
        var e := validations[i](input);
        evaluated := evaluated + 1;
        assert validations[i..][0] == validations[i];
        assert validations[i..][1..] == validations[i + 1..];
        if e.Some? {
          return e, evaluated;
        }
      }
      error := None;
    }
  }
}
