/** What an event started and no later event stopped, and the first and the last of some optional values. */
module Histories {
  import opened Basics

  /** Among the first `n` events some event starts, and none after it stops. */
  ghost predicate Since(starts: seq<bool>, stops: seq<bool>, n: nat)
    requires n <= |starts| == |stops|
  {
    exists i :: 0 <= i < n && StartedAt(starts, stops, i, n)
  }

  /** The i-th event starts, and none of the later ones among the first `n` stops. */
  ghost predicate StartedAt(starts: seq<bool>, stops: seq<bool>, i: nat, n: nat)
    requires i < n <= |starts| == |stops|
  {
    starts[i] && forall k :: i < k < n ==> !stops[k]
  }

  /** One more event: it starts, or it does not stop what was started before. */
  lemma SinceStep(starts: seq<bool>, stops: seq<bool>, n: nat)
    requires n < |starts| == |stops|
    ensures Since(starts, stops, n + 1) <==> starts[n] || (Since(starts, stops, n) && !stops[n])
  {
    var next := n + 1;
    if starts[n] {
      assert StartedAt(starts, stops, n, next);
    }
    if !stops[n] {
      if i :| 0 <= i < n && StartedAt(starts, stops, i, n) {
        assert StartedAt(starts, stops, i, next);
      }
    }
    if i :| 0 <= i < next && StartedAt(starts, stops, i, next) {
      if i < n {
        assert StartedAt(starts, stops, i, n);
      }
    }
  }

  // ----- The first and the last value -----

  function FirstOf<T>(values: seq<Option<T>>): Option<T>
  {
    if values == [] then None
    else if values[0].Some? then values[0]
    else FirstOf(values[1..])
  }

  function LastOf<T>(values: seq<Option<T>>): Option<T>
  {
    if values == [] then None
    else if LastOf(values[1..]).Some? then LastOf(values[1..])
    else values[0]
  }

  /** The i-th place holds a value, and no place before it does. */
  ghost predicate FirstAt<T(!new)>(values: seq<Option<T>>, i: int, value: T)
  {
    0 <= i < |values| && values[i] == Some(value) && forall k :: 0 <= k < i ==> values[k].None?
  }

  /** The i-th place holds a value, and no place after it does. */
  ghost predicate LastAt<T(!new)>(values: seq<Option<T>>, i: int, value: T)
  {
    0 <= i < |values| && values[i] == Some(value) && forall k :: i < k < |values| ==> values[k].None?
  }

  ghost predicate NoneAnywhere<T(!new)>(values: seq<Option<T>>)
  {
    forall i :: 0 <= i < |values| ==> values[i].None?
  }

  lemma {:induction false} FirstOfExactly<T(!new)>(values: seq<Option<T>>)
    ensures FirstOf(values).None? <==> NoneAnywhere(values)
    ensures forall value :: FirstOf(values) == Some(value) <==> exists i :: FirstAt(values, i, value)
  {
    if values != [] {
      var rest := values[1..];
      FirstOfExactly(rest);
      assert forall i :: 0 < i < |values| ==> values[i] == rest[i - 1];
      forall value ensures FirstOf(values) == Some(value) <==> exists i :: FirstAt(values, i, value) {
        if i :| FirstAt(rest, i, value) && values[0].None? {
          var next := i + 1;
          assert FirstAt(values, next, value);
        }
        if i :| FirstAt(values, i, value) && i > 0 {
          assert FirstAt(rest, i - 1, value);
        }
        if values[0] == Some(value) {
          assert FirstAt(values, 0, value);
        }
      }
    }
  }

  lemma {:induction false} LastOfExactly<T(!new)>(values: seq<Option<T>>)
    ensures LastOf(values).None? <==> NoneAnywhere(values)
    ensures forall value :: LastOf(values) == Some(value) <==> exists i :: LastAt(values, i, value)
  {
    if values != [] {
      var rest := values[1..];
      LastOfExactly(rest);
      assert forall i :: 0 < i < |values| ==> values[i] == rest[i - 1];
      forall value ensures LastOf(values) == Some(value) <==> exists i :: LastAt(values, i, value) {
        if i :| LastAt(rest, i, value) {
          var next := i + 1;
          assert LastAt(values, next, value);
        }
        if i :| LastAt(values, i, value) && i > 0 {
          assert LastAt(rest, i - 1, value);
        }
        if values[0] == Some(value) && NoneAnywhere(rest) {
          assert LastAt(values, 0, value);
        }
      }
    }
  }
}
