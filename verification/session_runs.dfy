/** Whole runs of the reducer: lists of events, each with the clock reading it is reduced at. */
module SessionRuns {
  import opened Basics
  import opened SessionTypes
  import opened Reducer

  datatype Timed = Timed(event: ProtocolEvent, nowMs: i64)

  function Run(state: SessionState, events: seq<Timed>): SessionState
  {
    if events == [] then state else
      var n := |events| - 1;
      Reduce(Run(state, events[..n]), events[n].event, events[n].nowMs)
  }

  /** A run over a concatenation is the second run started where the first one ended. */
  lemma {:induction false} RunConcat(state: SessionState, first: seq<Timed>, second: seq<Timed>)
    ensures Run(state, first + second) == Run(Run(state, first), second)
  {
    if second == [] {
      assert first + second == first;
    } else {
      var n := |second| - 1;
      assert (first + second)[..|first| + n] == first + second[..n];
      RunConcat(state, first, second[..n]);
    }
  }
}
