/** Runs as values, built event by event. */
module ProtocolTraces {
  import opened Bytes
  import opened Messages
  import opened Protocol
  import opened ProtocolTheorems

  /** The event takes no message queued before the marks. */
  ghost predicate Takes(e: Event, out: nat, back: nat) {
    && (e.MetaArrives? || e.DataArrives? ==> e.k >= out)
    && (e.AckArrives? || e.FinArrives? ==> e.k >= back)
  }

  datatype Trace = Trace(states: seq<State>, events: seq<Event>) {
    ghost predicate Of(t: Transfer, digest: Bytes -> string, last: State) {
      Run(t, digest, states, events) && states[|states| - 1] == last
    }

    ghost predicate Continues(r: Trace) {
      r.states <= states && r.events <= events
    }

    /** It continues r without any message at a position below the marks: those are lost. */
    ghost predicate Since(r: Trace, out: nat, back: nat) {
      Continues(r) && forall j :: |r.events| <= j < |events| ==> Takes(events[j], out, back)
    }
  }

  lemma Start(t: Transfer, digest: Bytes -> string) returns (r: Trace)
    ensures r.Of(t, digest, INITIAL)
  {
    r := Trace([INITIAL], []);
  }

  lemma Extend(t: Transfer, digest: Bytes -> string, r: Trace, s: State, e: Event) returns (r': Trace)
    requires r.Of(t, digest, s) && Enabled(t, s, e)
    ensures r'.Of(t, digest, Do(t, digest, s, e)) && r'.Continues(r)
    ensures r'.states == r.states + [Do(t, digest, s, e)] && r'.events == r.events + [e]
  {
    var s' := Do(t, digest, s, e);
    r' := Trace(r.states + [s'], r.events + [e]);
    forall i | 0 <= i < |r'.events|
      ensures StepAt(t, digest, r'.states, r'.events, i)
    {
      if i < |r.events| {
        assert StepAt(t, digest, r.states, r.events, i);
        assert r'.states[i] == r.states[i] && r'.states[i + 1] == r.states[i + 1] && r'.events[i] == r.events[i];
      } else {
        assert r'.states[i] == s;
      }
    }
  }

  /** One more event after those since r. */
  lemma Then(t: Transfer, digest: Bytes -> string, r: Trace, r1: Trace, s: State, e: Event, out: nat, back: nat)
    returns (r': Trace)
    requires r1.Of(t, digest, s) && Enabled(t, s, e) && r1.Since(r, out, back) && Takes(e, out, back)
    ensures r'.Of(t, digest, Do(t, digest, s, e)) && r'.Since(r, out, back)
  {
    r' := Extend(t, digest, r1, s, e);
    assert forall j :: |r1.events| <= j < |r'.events| ==> r'.events[j] == e;
    SinceTransitive(r, r1, r', out, back);
  }

  lemma SinceTransitive(a: Trace, b: Trace, c: Trace, out: nat, back: nat)
    requires b.Since(a, out, back) && c.Since(b, out, back)
    ensures c.Since(a, out, back)
  {
    forall j | |a.events| <= j < |c.events|
      ensures Takes(c.events[j], out, back)
    {
      if j < |b.events| {
        assert c.events[j] == b.events[j];
      }
    }
  }

  lemma TraceInv(t: Transfer, digest: Bytes -> string, r: Trace, s: State)
    requires WellFormed(t, digest) && r.Of(t, digest, s)
    ensures Inv(t, s)
  {
    Always(t, digest, r.states, r.events, |r.states| - 1);
  }
}
