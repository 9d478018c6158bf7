/** The limits on patient regions are reached: by some run for every file, and by a run that a late META has doomed. */
module ProtocolLimits {
  import opened Bytes
  import opened Messages
  import opened SendWindow
  import opened Protocol
  import opened ProtocolTheorems
  import opened ProtocolResets
  import opened ProtocolTraces
  import opened ProtocolExamples
  import opened ProtocolCompletes
  import opened ProtocolLosses

  // Counting along a trace

  ghost function Patients(r: Trace): nat
    requires |r.states| == |r.events| + 1
  {
    PatientCount(r.states, r.events, |r.events|)
  }

  lemma {:induction false} SamePrefix(r: Trace, r': Trace, n: nat)
    requires |r.states| == |r.events| + 1 && |r'.states| == |r'.events| + 1 && r'.Continues(r) && n <= |r.events|
    ensures PatientCount(r'.states, r'.events, n) == PatientCount(r.states, r.events, n)
  {
    if n > 0 {
      SamePrefix(r, r', n - 1);
      assert r'.states[n - 1] == r.states[n - 1] && r'.events[n - 1] == r.events[n - 1];
    }
  }

  lemma {:induction false} CountGrows(r: Trace, m: nat, n: nat)
    requires |r.states| == |r.events| + 1 && m <= n <= |r.events|
    ensures PatientCount(r.states, r.events, m) <= PatientCount(r.states, r.events, n)
  {
    if m < n {
      CountGrows(r, m, n - 1);
    }
  }

  lemma PatientsGrow(r: Trace, r': Trace)
    requires |r.states| == |r.events| + 1 && |r'.states| == |r'.events| + 1 && r'.Continues(r)
    ensures Patients(r) <= Patients(r')
  {
    SamePrefix(r, r', |r.events|);
    CountGrows(r', |r.events|, |r'.events|);
  }

  /** One more event, counted. */
  lemma ThenCount(
      t: Transfer, digest: Bytes -> string, r: Trace, r1: Trace, s: State, e: Event, out: nat, back: nat)
    returns (r': Trace)
    requires r1.Of(t, digest, s) && Enabled(t, s, e) && r1.Since(r, out, back) && Takes(e, out, back)
    ensures r'.Of(t, digest, Do(t, digest, s, e)) && r'.Since(r, out, back)
    ensures Patients(r') == Patients(r1) + if Patient(s, e) then 1 else 0
  {
    r' := Extend(t, digest, r1, s, e);
    assert forall j :: |r1.events| <= j < |r'.events| ==> r'.events[j] == e;
    SinceTransitive(r, r1, r', out, back);
    SamePrefix(r1, r', |r1.events|);
    assert r'.events[|r1.events|] == e && r'.states[|r1.events|] == s;
  }

  // Entries that were all sent at the same times

  ghost predicate Uniform(inflight: seq<Flight>, retries: nat) {
    forall j :: 0 <= j < |inflight| ==> inflight[j].stamp == 0.0 && inflight[j].retries == retries
  }

  lemma {:induction false} RefillUniform(t: Transfer, s: SendState)
    requires Shape(t, s) && Uniform(s.inflight, 0)
    ensures Uniform(RefillWindow(t, s, STILL).state.inflight, 0)
    decreases t.total - s.nextToSend
  {
    if |s.inflight| < WINDOW_SIZE && s.nextToSend < t.total {
      SendNextShape(t, s, At(STILL, s.nextToSend));
      RefillUniform(t, SendNext(s, At(STILL, s.nextToSend)));
    }
  }

  lemma {:induction false} ResendUniform(t: Transfer, inflight: seq<Flight>, retries: nat)
    requires Uniform(inflight, retries) && inflight != [] && retries <= MAX_RETRIES
    ensures AllExpired(inflight, 1.0)
    ensures var r := Resend(t, inflight, 1.0, STILL);
            && r.gaveUp == (retries == MAX_RETRIES)
            && (retries < MAX_RETRIES ==> Uniform(r.inflight, retries + 1))
  {
    assert Expired(inflight[0], 1.0);
    if retries < MAX_RETRIES && |inflight| > 1 {
      ResendUniform(t, inflight[1..], retries);
    }
  }

  /** The pump may enter; some chunk is unacknowledged, and the window holds what it can. */
  ghost predicate Ready(t: Transfer, s: State) {
    && s.registered && s.pumpPc.PumpIdle? && s.snd.metaAcked && !s.snd.finished
    && s.snd.lastAcked + 1 < t.total && s.snd.inflight != []
    && (|s.snd.inflight| == WINDOW_SIZE || s.snd.nextToSend == t.total)
  }

  lemma ServiceUniform(t: Transfer, s: SendState, retries: nat)
    requires Shape(t, s) && s.inflight != [] && Uniform(s.inflight, retries) && !s.finished
    requires |s.inflight| == WINDOW_SIZE || s.nextToSend == t.total
    ensures AllExpired(s.inflight, 1.0) && retries <= MAX_RETRIES
    ensures var e := Service(t, s, 1.0, STILL).state;
            && e.finished == (retries == MAX_RETRIES)
            && e == s.(inflight := e.inflight, finished := e.finished)
            && |e.inflight| == |s.inflight|
            && (retries < MAX_RETRIES ==> Uniform(e.inflight, retries + 1))
  {
    assert s.inflight[0].retries <= MAX_RETRIES;
    ResendUniform(t, s.inflight, retries);
    ResendShape(t, s.inflight, s.lastAcked + 1, 1.0, STILL);
    var r := RetransferExpired(t, s, 1.0, STILL).state;
    if !r.finished {
      assert RefillWindow(t, r, STILL) == Effect(r, []);
    }
  }

  // Visits

  /** A visit that finds everything expired: one more retry for every entry, or the end. */
  lemma NextVisit(t: Transfer, digest: Bytes -> string, r: Trace, s: State, retries: nat, out: nat, back: nat)
    returns (r': Trace, s': State)
    requires WellFormed(t, digest) && r.Of(t, digest, s) && Ready(t, s) && Uniform(s.snd.inflight, retries)
    ensures r'.Of(t, digest, s') && r'.Since(r, out, back) && Patients(r') == Patients(r) + 1
    ensures retries <= MAX_RETRIES && s'.slot == s.slot && s'.snd.finished == (retries == MAX_RETRIES)
    ensures retries < MAX_RETRIES ==>
              && s' == s.(snd := s.snd.(inflight := s'.snd.inflight), out := s'.out)
              && Ready(t, s') && Uniform(s'.snd.inflight, retries + 1)
  {
    TraceInv(t, digest, r, s);
    ServiceUniform(t, s.snd, retries);
    var e := Service(t, s.snd, 1.0, STILL);
    r' := ThenCount(t, digest, r, r, s, PumpVisit, out, back);
    s' := s.(pumpPc := PumpEntering);
    r' := ThenCount(t, digest, r, r', s', PumpService(1.0, STILL), out, back);
    s' := s.(snd := e.state, pumpPc := PumpTesting, out := s.out + e.posts);
    if retries < MAX_RETRIES {
      r' := ThenCount(t, digest, r, r', s', PumpTest, out, back);
      s' := s.(snd := e.state, out := s.out + e.posts);
    }
  }

  /** All the retries of a window. */
  lemma {:induction false} Wait(
      t: Transfer, digest: Bytes -> string, r: Trace, s: State, retries: nat, out: nat, back: nat)
    returns (r': Trace, s': State)
    requires WellFormed(t, digest) && r.Of(t, digest, s) && Ready(t, s) && Uniform(s.snd.inflight, retries)
    requires retries <= MAX_RETRIES
    ensures r'.Of(t, digest, s') && r'.Since(r, out, back) && Patients(r') == Patients(r) + MAX_RETRIES - retries
    ensures s' == s.(snd := s.snd.(inflight := s'.snd.inflight), out := s'.out)
    ensures Ready(t, s') && Uniform(s'.snd.inflight, MAX_RETRIES)
    decreases MAX_RETRIES - retries
  {
    if retries == MAX_RETRIES {
      return r, s;
    }
    var r1, s1 := NextVisit(t, digest, r, s, retries, out, back);
    r', s' := Wait(t, digest, r1, s1, retries + 1, out, back);
    SinceTransitive(r, r1, r', out, back);
  }

  /** With nothing arriving the sender gives up. */
  lemma GiveUpRun(t: Transfer, digest: Bytes -> string, r: Trace, s: State, retries: nat, out: nat, back: nat)
    returns (r': Trace, s': State)
    requires WellFormed(t, digest) && r.Of(t, digest, s) && Ready(t, s) && Uniform(s.snd.inflight, retries)
    requires retries <= MAX_RETRIES
    ensures r'.Of(t, digest, s') && r'.Since(r, out, back)
    ensures Patients(r') == Patients(r) + MAX_RETRIES - retries + 1
    ensures s'.snd.finished && s'.slot == s.slot
  {
    var r1, s1 := Wait(t, digest, r, s, retries, out, back);
    r', s' := NextVisit(t, digest, r1, s1, MAX_RETRIES, out, back);
    SinceTransitive(r, r1, r', out, back);
  }

  // Window after window

  /** The region that fills an empty window. */
  lemma FillVisit(t: Transfer, digest: Bytes -> string, r: Trace, s: State, k: nat) returns (r': Trace, s': State)
    requires WellFormed(t, digest) && r.Of(t, digest, s) && s.pumpPc.PumpEntering?
    requires Agreed(t, s.(pumpPc := PumpIdle), k) && s.snd.nextToSend == k
    ensures r'.Of(t, digest, s') && Patients(r') == Patients(r) + 1
    ensures Agreed(t, s', k) && Ready(t, s') && Uniform(s'.snd.inflight, 0)
    ensures s'.snd.nextToSend == if k + WINDOW_SIZE < t.total then k + WINDOW_SIZE else t.total
  {
    TraceInv(t, digest, r, s);
    ServiceOfNothing(t, s.snd, 1.0, STILL);
    RefillShape(t, s.snd, STILL);
    RefillUniform(t, s.snd);
    var e := Service(t, s.snd, 1.0, STILL);
    r' := ThenCount(t, digest, r, r, s, PumpService(1.0, STILL), 0, 0);
    s' := s.(snd := e.state, pumpPc := PumpTesting, out := s.out + e.posts);
    r' := ThenCount(t, digest, r, r', s', PumpTest, 0, 0);
    s' := s.(snd := e.state, pumpPc := PumpIdle, out := s.out + e.posts);
  }

  /** The chunks of a window arrive, and their ACKs. */
  lemma {:induction false} DeliverUpTo(t: Transfer, digest: Bytes -> string, r: Trace, s: State, k: nat, m: nat)
    returns (r': Trace, s': State)
    requires WellFormed(t, digest) && r.Of(t, digest, s) && Agreed(t, s, k)
    requires k <= m < t.total && m <= s.snd.nextToSend
    ensures r'.Of(t, digest, s') && r'.Continues(r)
    ensures Agreed(t, s', m) && s'.snd.nextToSend == s.snd.nextToSend
    decreases m - k
  {
    if k == m {
      return r, s;
    }
    var r1, s1 := Advance(t, digest, r, s, k, 0, 0);
    r', s' := DeliverUpTo(t, digest, r1, s1, k + 1, m);
    assert r1.Since(r, 0, 0) && r'.Continues(r1);
  }

  /** About to enter the locked region, with the first k chunks acknowledged and nothing in flight. */
  ghost predicate Entering(t: Transfer, s: State, k: nat) {
    s.pumpPc.PumpEntering? && Agreed(t, s.(pumpPc := PumpIdle), k) && s.snd.nextToSend == k
  }

  /** A window that is not the last uses up all its retries before it is acknowledged. */
  lemma OneWindow(t: Transfer, digest: Bytes -> string, r: Trace, s: State, k: nat) returns (r': Trace, s': State)
    requires WellFormed(t, digest) && r.Of(t, digest, s) && Entering(t, s, k) && k + WINDOW_SIZE < t.total
    ensures r'.Of(t, digest, s') && Entering(t, s', k + WINDOW_SIZE)
    ensures Patients(r') >= Patients(r) + MAX_RETRIES + 1
  {
    var r1, s1 := FillVisit(t, digest, r, s, k);
    var r2, s2 := Wait(t, digest, r1, s1, 0, 0, 0);
    var r3, s3 := DeliverUpTo(t, digest, r2, s2, k, k + WINDOW_SIZE);
    PatientsGrow(r2, r3);
    r' := ThenCount(t, digest, r3, r3, s3, PumpVisit, 0, 0);
    s' := s3.(pumpPc := PumpEntering);
  }

  /** The last window is never acknowledged. */
  lemma FinalWindow(t: Transfer, digest: Bytes -> string, r: Trace, s: State, k: nat) returns (r': Trace, s': State)
    requires WellFormed(t, digest) && r.Of(t, digest, s) && Entering(t, s, k) && k + WINDOW_SIZE >= t.total
    ensures r'.Of(t, digest, s') && s'.snd.finished && Patients(r') == Patients(r) + MAX_RETRIES + 2
  {
    r', s' := FillVisit(t, digest, r, s, k);
    r', s' := GiveUpRun(t, digest, r', s', 0, 0, 0);
  }

  lemma Begin(t: Transfer, digest: Bytes -> string) returns (r: Trace, s: State)
    requires WellFormed(t, digest) && t.total > 0
    ensures r.Of(t, digest, s) && Entering(t, s, 0)
  {
    r := Handshake(t, digest);
    s := Announced(t, Opened(t));
  }

  /** After n windows of that kind, from the start. */
  lemma {:induction false} Windows(t: Transfer, digest: Bytes -> string, n: nat, k: nat) returns (r: Trace, s: State)
    requires WellFormed(t, digest) && k == WINDOW_SIZE * n < t.total
    ensures r.Of(t, digest, s) && Entering(t, s, k)
    ensures Patients(r) >= (MAX_RETRIES + 1) * n
    decreases n, 0
  {
    if n == 0 {
      r, s := Begin(t, digest);
    } else {
      r, s := NextWindow(t, digest, n - 1, k - WINDOW_SIZE);
    }
  }

  lemma {:induction false} NextWindow(t: Transfer, digest: Bytes -> string, n: nat, k: nat)
    returns (r: Trace, s: State)
    requires WellFormed(t, digest) && k == WINDOW_SIZE * n && k + WINDOW_SIZE < t.total
    ensures r.Of(t, digest, s) && Entering(t, s, k + WINDOW_SIZE)
    ensures Patients(r) >= (MAX_RETRIES + 1) * n + (MAX_RETRIES + 1)
    decreases n, 1
  {
    var r0, s0 := Windows(t, digest, n, k);
    r, s := OneWindow(t, digest, r0, s0, k);
  }

  lemma AllWindows(t: Transfer, digest: Bytes -> string, n: nat, k: nat) returns (r: Trace, s: State)
    requires WellFormed(t, digest) && k == WINDOW_SIZE * n < t.total <= k + WINDOW_SIZE
    ensures r.Of(t, digest, s) && s.snd.finished
    ensures Patients(r) >= (MAX_RETRIES + 1) * n + MAX_RETRIES + 2
  {
    var r0, s0 := Windows(t, digest, n, k);
    r, s := FinalWindow(t, digest, r0, s0, k);
  }

  lemma LimitInWindows(total: nat) returns (n: nat)
    requires total >= 1
    ensures WINDOW_SIZE * n < total <= WINDOW_SIZE * n + WINDOW_SIZE
    ensures Limit(total) == (MAX_RETRIES + 1) * n + MAX_RETRIES + 2
  {
    n := (total - 1) / WINDOW_SIZE;
    assert (total + WINDOW_SIZE - 1) / WINDOW_SIZE == n + 1;
  }

  /** The limit of `Terminates` is the exact one: for every file with chunks some run reaches it. */
  lemma LimitReached(t: Transfer, digest: Bytes -> string) returns (r: Trace, s: State)
    requires WellFormed(t, digest) && t.total >= 1
    ensures r.Of(t, digest, s) && s.snd.finished
    ensures PatientCount(r.states, r.events, |r.events|) == Limit(t.total) == 11 * ((t.total + 15) / 16) + 1
  {
    var n := LimitInWindows(t.total);
    r, s := AllWindows(t, digest, n, WINDOW_SIZE * n);
    Terminates(t, digest, r.states, r.events, |r.events|);
  }

  /**
   * A repeated META dooms a transfer: the run of `LateMetaResets` goes on, with no message arriving any more, to an
   * error after exactly as many patient regions as `ResetEndsInError` allows.
   */
  lemma LateMetaFails(digest: Bytes -> string) returns (r: Trace, s: State, r': Trace, s': State)
    ensures r.Of(Sample(digest, 2), digest, s) && Lacks(s, 0) && 0 <= s.snd.lastAcked && s.slot.dest.None?
    ensures r'.Of(Sample(digest, 2), digest, s') && r'.Since(r, |s.out|, |s.back|)
    ensures Shape(Sample(digest, 2), s.snd) && Patients(r') == Patients(r) + Turns(Sample(digest, 2), s.snd) + 1
    ensures Failed(s') && s'.slot.dest.None? && FIN_OK !in s'.out
  {
    var t := Sample(digest, 2);
    SampleWellFormed(digest, 2);
    r, s := LateMetaResets(digest);
    TraceInv(t, digest, r, s);
    r', s' := GiveUpRun(t, digest, r, s, 0, |s.out|, |s.back|);
    NoCopyArrives(t, digest, r, s, r', s', 0, |s.back|);
    ResetEndsInError(t, digest, r'.states, r'.events, |r.events|, |r'.events|, 0);
  }
}
