/**
 * The sender's sliding window as a value: what one region under the context's lock does to it.
 * The methods in SenderNode.dfy and SenderThreads.dfy are proved against these functions and Protocol.dfy runs them.
 */
module SendWindow {
  import opened Messages
  import opened Ranges

  const WINDOW_SIZE: nat := 16
  const TIMEOUT_S: real := 0.6
  const MAX_RETRIES: nat := 10

  /** An entry of the `inflight` dictionary: its key, and the pair (time, retries). */
  datatype Flight = Flight(idx: nat, stamp: real, retries: nat)

  /** The changing fields of FileSendCtxSchema. A Python dictionary keeps insertion order, hence the sequence. */
  datatype SendState = SendState(
    nextToSend: nat,
    lastAcked: int,
    inflight: seq<Flight>,
    acked: set<nat>,
    finished: bool,
    metaAcked: bool
  )

  const FRESH := SendState(0, -1, [], {}, false, false)

  /** A region's effect: the new state and the messages it queued. */
  datatype Effect = Effect(state: SendState, posts: seq<Message>)

  // The dictionary

  ghost predicate DistinctKeys(inflight: seq<Flight>) {
    forall j, k :: 0 <= j < k < |inflight| ==> inflight[j].idx != inflight[k].idx
  }

  /** inflight[idx] = (stamp, retries): an existing key keeps its place. */
  function Mark(inflight: seq<Flight>, idx: nat, stamp: real, retries: nat): seq<Flight> {
    if inflight == [] then [Flight(idx, stamp, retries)]
    else if inflight[0].idx == idx then [Flight(idx, stamp, retries)] + inflight[1..]
    else [inflight[0]] + Mark(inflight[1..], idx, stamp, retries)
  }

  /** inflight.pop(idx, None) */
  function Remove(inflight: seq<Flight>, idx: nat): seq<Flight> {
    if inflight == [] then []
    else if inflight[0].idx == idx then inflight[1..]
    else [inflight[0]] + Remove(inflight[1..], idx)
  }

  /** The entries a cumulative ACK leaves in place. */
  function NotBelow(inflight: seq<Flight>, n: int): seq<Flight> {
    if inflight == [] then []
    else (if inflight[0].idx < n then [] else [inflight[0]]) + NotBelow(inflight[1..], n)
  }

  // The regions

  predicate Expired(f: Flight, now: real) {
    now - f.stamp >= TIMEOUT_S
  }

  /** The reading of the clock taken when chunk idx is marked. */
  function At(clock: nat -> real, idx: nat): real {
    clock(idx)
  }

  datatype Resent = Resent(inflight: seq<Flight>, posts: seq<Message>, gaveUp: bool)

  /** The loop over the in-flight entries. */
  function Resend(t: Transfer, inflight: seq<Flight>, now: real, clock: nat -> real): Resent
  {
    if inflight == [] then Resent([], [], false)
    else
      var f := inflight[0];
      if Expired(f, now) && f.retries >= MAX_RETRIES then Resent(inflight, [FIN_TIMEOUT], true)
      else
        var rest := Resend(t, inflight[1..], now, clock);
        if Expired(f, now) then
          var g := Flight(f.idx, At(clock, f.idx), f.retries + 1);
          Resent([g] + rest.inflight, [t.Data(f.idx)] + rest.posts, rest.gaveUp)
        else
          Resent([f] + rest.inflight, rest.posts, rest.gaveUp)
  }

  function RetransferExpired(t: Transfer, s: SendState, now: real, clock: nat -> real): Effect
  {
    var r := Resend(t, s.inflight, now, clock);
    Effect(s.(inflight := r.inflight, finished := s.finished || r.gaveUp), r.posts)
  }

  function SendNext(s: SendState, stamp: real): SendState {
    s.(inflight := Mark(s.inflight, s.nextToSend, stamp, 0), nextToSend := s.nextToSend + 1)
  }

  function RefillWindow(t: Transfer, s: SendState, clock: nat -> real): Effect
    decreases t.total - s.nextToSend
  {
    if |s.inflight| < WINDOW_SIZE && s.nextToSend < t.total then
      var idx := s.nextToSend;
      var rest := RefillWindow(t, SendNext(s, At(clock, idx)), clock);
      Effect(rest.state, [t.Data(idx)] + rest.posts)
    else
      Effect(s, [])
  }

  /** The region of `_pump` under the context's lock. */
  function Service(t: Transfer, s: SendState, now: real, clock: nat -> real): Effect
  {
    var resent := RetransferExpired(t, s, now, clock);
    if resent.state.finished then resent
    else
      var refilled := RefillWindow(t, resent.state, clock);
      Effect(refilled.state, resent.posts + refilled.posts)
  }

  /** The completion test that follows, outside the lock. */
  predicate Complete(t: Transfer, s: SendState)
  {
    s.lastAcked + 1 >= t.total && !s.finished
  }

  /** The keys it moves to `acked`. */
  function KeysBelow(inflight: seq<Flight>, n: int): (keys: set<nat>)
    ensures forall i :: i in keys <==> exists j :: 0 <= j < |inflight| && inflight[j].idx == i && i < n
  {
    if inflight == [] then {}
    else
      var rest := KeysBelow(inflight[1..], n);
      assert forall j :: 0 <= j < |inflight| - 1 ==> inflight[1..][j] == inflight[j + 1];
      assert forall j :: 0 < j < |inflight| ==> inflight[j] == inflight[1..][j - 1];
      if inflight[0].idx < n then {inflight[0].idx} + rest else rest
  }

  /** The region of `_on_ack` under the context's lock. */
  function Acknowledge(s: SendState, nextNeeded: int): SendState {
    s.(metaAcked := s.metaAcked || nextNeeded == 0,
       inflight := NotBelow(s.inflight, nextNeeded),
       acked := s.acked + KeysBelow(s.inflight, nextNeeded),
       lastAcked := if s.lastAcked >= nextNeeded - 1 then s.lastAcked else nextNeeded - 1)
  }

  // The shape of the window

  /** In-flight chunks are consecutive, right after the last one acknowledged. */
  ghost predicate Shape(t: Transfer, s: SendState)
  {
    && -1 <= s.lastAcked
    && s.lastAcked + 1 + |s.inflight| == s.nextToSend <= t.total
    && Consecutive(s.inflight, s.lastAcked + 1)
    && |s.inflight| <= WINDOW_SIZE
    && s.acked == Range(0, s.lastAcked + 1)
  }

  function Keys(inflight: seq<Flight>): set<nat> {
    set f | f in inflight :: f.idx
  }

  /** The same in terms of sets: in-flight and acknowledged chunks split the chunks sent so far. */
  lemma ShapePartitions(t: Transfer, s: SendState)
    requires Shape(t, s)
    ensures Keys(s.inflight) == Range(s.lastAcked + 1, s.nextToSend)
    ensures Keys(s.inflight) !! s.acked
    ensures Keys(s.inflight) + s.acked == Range(0, s.nextToSend)
    ensures |Keys(s.inflight)| == |s.inflight| <= WINDOW_SIZE && s.nextToSend <= t.total
  {
    var keys := Keys(s.inflight);
    forall i: nat | s.lastAcked < i < s.nextToSend
      ensures i in keys
    {
      assert s.inflight[i - s.lastAcked - 1] in s.inflight;
    }
    KeysDistinct(s.inflight);
  }

  lemma {:induction false} KeysDistinct(inflight: seq<Flight>)
    requires DistinctKeys(inflight)
    ensures |Keys(inflight)| == |inflight|
  {
    if inflight != [] {
      KeysDistinct(inflight[1..]);
      assert inflight == [inflight[0]] + inflight[1..];
      assert Keys(inflight) == {inflight[0].idx} + Keys(inflight[1..]);
      assert inflight[0].idx !in Keys(inflight[1..]);
    }
  }

  lemma {:induction false} MarkNew(inflight: seq<Flight>, idx: nat, stamp: real, retries: nat)
    requires forall j :: 0 <= j < |inflight| ==> inflight[j].idx != idx
    ensures Mark(inflight, idx, stamp, retries) == inflight + [Flight(idx, stamp, retries)]
  {
    if inflight != [] {
      MarkNew(inflight[1..], idx, stamp, retries);
    }
  }

  /** On consecutive keys a cumulative ACK cuts off a prefix. */
  lemma {:induction false} NotBelowIsSuffix(inflight: seq<Flight>, base: int, n: int)
    requires forall j :: 0 <= j < |inflight| ==> inflight[j].idx == base + j
    requires n <= base + |inflight|
    ensures NotBelow(inflight, n) == inflight[if n <= base then 0 else n - base..]
  {
    if inflight != [] {
      NotBelowIsSuffix(inflight[1..], base + 1, if n <= base then base else n);
      if n <= base {
        NotBelowMonotone(inflight[1..], n, base + 1);
      }
    }
  }

  lemma {:induction false} NotBelowMonotone(inflight: seq<Flight>, n: int, base: int)
    requires forall j :: 0 <= j < |inflight| ==> inflight[j].idx >= base
    requires n <= base
    ensures NotBelow(inflight, n) == inflight
  {
    if inflight != [] {
      NotBelowMonotone(inflight[1..], n, base);
    }
  }

  /** The keys below n, together with what was acknowledged before, are the chunks below n. */
  lemma AcknowledgedKeys(t: Transfer, s: SendState, n: nat)
    requires Shape(t, s) && s.lastAcked + 1 <= n <= s.nextToSend
    ensures s.acked + KeysBelow(s.inflight, n) == Range(0, n)
  {
    var keys := KeysBelow(s.inflight, n);
    forall i: nat | s.lastAcked < i < n
      ensures i in keys
    {
      assert s.inflight[i - s.lastAcked - 1].idx == i;
    }
  }

  lemma NoKeysBelow(inflight: seq<Flight>, n: int)
    requires forall j :: 0 <= j < |inflight| ==> n <= inflight[j].idx
    ensures KeysBelow(inflight, n) == {}
  {
  }

  /** On consecutive keys what an ACK for n leaves starts at n. */
  lemma NotBelowConsecutive(inflight: seq<Flight>, base: nat, n: nat)
    requires Consecutive(inflight, base) && base <= n <= base + |inflight|
    ensures |NotBelow(inflight, n)| == base + |inflight| - n && Consecutive(NotBelow(inflight, n), n)
  {
    NotBelowIsSuffix(inflight, base, n);
    forall j | 0 <= j < base + |inflight| - n
      ensures NotBelow(inflight, n)[j].idx == n + j && NotBelow(inflight, n)[j].retries <= MAX_RETRIES
    {
      assert NotBelow(inflight, n)[j] == inflight[n - base + j];
    }
  }

  /** An ACK for what is acknowledged already changes nothing but the handshake flag. */
  lemma StaleAcknowledge(t: Transfer, s: SendState, n: int)
    requires Shape(t, s) && n <= s.lastAcked + 1
    ensures Acknowledge(s, n) == s.(metaAcked := s.metaAcked || n == 0)
  {
    NoKeysBelow(s.inflight, n);
    NotBelowMonotone(s.inflight, n, s.lastAcked + 1);
  }

  lemma FreshAcknowledge(t: Transfer, s: SendState, n: nat)
    requires Shape(t, s) && s.lastAcked + 1 < n <= s.nextToSend
    ensures Shape(t, Acknowledge(s, n))
  {
    AcknowledgedKeys(t, s, n);
    NotBelowConsecutive(s.inflight, s.lastAcked + 1, n);
  }

  /** An ACK that asks for nothing beyond what was sent keeps the shape. */
  lemma AcknowledgeKeepsShape(t: Transfer, s: SendState, nextNeeded: int)
    requires Shape(t, s)
    requires 0 <= nextNeeded <= s.nextToSend
    ensures Shape(t, Acknowledge(s, nextNeeded))
  {
    if nextNeeded <= s.lastAcked + 1 {
      StaleAcknowledge(t, s, nextNeeded);
    } else {
      FreshAcknowledge(t, s, nextNeeded);
    }
  }

  // Retransmission budget

  /** Retransmissions the in-flight chunks may still use. */
  function Spare(inflight: seq<Flight>): int {
    if inflight == [] then 0 else MAX_RETRIES - inflight[0].retries + Spare(inflight[1..])
  }

  lemma {:induction false} SpareAppend(a: seq<Flight>, b: seq<Flight>)
    ensures Spare(a + b) == Spare(a) + Spare(b)
  {
    if a == [] {
      assert a + b == b;
    } else {
      assert (a + b)[1..] == a[1..] + b;
      SpareAppend(a[1..], b);
    }
  }

  lemma {:induction false} SpareNonNegative(inflight: seq<Flight>)
    requires forall j :: 0 <= j < |inflight| ==> inflight[j].retries <= MAX_RETRIES
    ensures 0 <= Spare(inflight)
  {
    if inflight != [] {
      SpareNonNegative(inflight[1..]);
    }
  }

  /** DATA messages that may still be queued. */
  function Budget(t: Transfer, s: SendState): int
  {
    (t.total - s.nextToSend) * (MAX_RETRIES + 1) + Spare(s.inflight)
  }

  /** The termination measure: every chunk not yet sent weighs two more than its retries. */
  function Measure(t: Transfer, s: SendState): int
  {
    (t.total - s.nextToSend) * (MAX_RETRIES + 2) + Spare(s.inflight) + |s.inflight|
  }

  ghost predicate AllExpired(inflight: seq<Flight>, now: real) {
    forall j :: 0 <= j < |inflight| ==> Expired(inflight[j], now)
  }

  // One pass over the in-flight chunks base, base + 1, ...

  ghost predicate Consecutive(inflight: seq<Flight>, base: nat) {
    forall j :: 0 <= j < |inflight| ==> inflight[j].idx == base + j && inflight[j].retries <= MAX_RETRIES
  }

  lemma {:induction false} ResendShape(t: Transfer, inflight: seq<Flight>, base: nat, now: real, clock: nat -> real)
    requires Consecutive(inflight, base)
    ensures var r := Resend(t, inflight, now, clock);
            && |r.inflight| == |inflight|
            && Consecutive(r.inflight, base)
            && (forall m :: m in r.posts ==>
                  m == FIN_TIMEOUT || exists i: nat :: base <= i < base + |inflight| && m == t.Data(i))
  {
    if inflight != [] {
      ResendShape(t, inflight[1..], base + 1, now, clock);
      assert inflight[0].idx == base;
    }
  }

  /** Each chunk is queued as often as its retry counter rose. */
  lemma {:induction false} ResendCount(
      t: Transfer, inflight: seq<Flight>, base: nat, now: real, clock: nat -> real, i: nat)
    requires Consecutive(inflight, base)
    ensures var r := Resend(t, inflight, now, clock);
            && |r.inflight| == |inflight|
            && Count(r.posts, t.Data(i)) ==
               if base <= i < base + |inflight| then r.inflight[i - base].retries - inflight[i - base].retries else 0
  {
    if inflight == [] {
    } else if Expired(inflight[0], now) && inflight[0].retries >= MAX_RETRIES {
      CountOne(FIN_TIMEOUT, t.Data(i));
    } else {
      ResendCount(t, inflight[1..], base + 1, now, clock, i);
      if Expired(inflight[0], now) {
        CountAppend([t.Data(base)], Resend(t, inflight[1..], now, clock).posts, t.Data(i));
        CountOne(t.Data(base), t.Data(i));
      }
    }
  }

  /** A retransmission costs one unit of the budget; the pass queues at most one FIN. */
  lemma {:induction false} ResendCost(t: Transfer, inflight: seq<Flight>, now: real, clock: nat -> real)
    ensures var r := Resend(t, inflight, now, clock);
            && CountData(r.posts) + Spare(r.inflight) == Spare(inflight)
            && Count(r.posts, FIN_TIMEOUT) == (if r.gaveUp then 1 else 0)
            && (AllExpired(inflight, now) && !r.gaveUp ==> CountData(r.posts) == |inflight|)
  {
    if inflight == [] {
    } else if Expired(inflight[0], now) && inflight[0].retries >= MAX_RETRIES {
      CountOne(FIN_TIMEOUT, FIN_TIMEOUT);
    } else {
      var m, rest := t.Data(inflight[0].idx), Resend(t, inflight[1..], now, clock);
      ResendCost(t, inflight[1..], now, clock);
      if Expired(inflight[0], now) {
        CountAppend([m], rest.posts, FIN_TIMEOUT);
        CountDataAppend([m], rest.posts);
        CountOne(m, FIN_TIMEOUT);
      }
    }
  }

  lemma CountOne(a: Message, m: Message)
    ensures Count([a], m) == if a == m then 1 else 0
    ensures CountData([a]) == if a.Data? then 1 else 0
  {
    assert [a][..0] == [];
  }

  // Filling the window

  /** How often an unacknowledged chunk was queued, read off the state. */
  function Sends(s: SendState, i: nat): nat
    requires s.lastAcked < i
    requires s.lastAcked + 1 + |s.inflight| == s.nextToSend
  {
    if i < s.nextToSend then 1 + s.inflight[i - s.lastAcked - 1].retries else 0
  }

  lemma SendNextShape(t: Transfer, s: SendState, stamp: real)
    requires Shape(t, s) && |s.inflight| < WINDOW_SIZE && s.nextToSend < t.total
    ensures SendNext(s, stamp).inflight == s.inflight + [Flight(s.nextToSend, stamp, 0)]
    ensures Shape(t, SendNext(s, stamp))
  {
    MarkNew(s.inflight, s.nextToSend, stamp, 0);
  }

  lemma {:induction false} RefillShape(t: Transfer, s: SendState, clock: nat -> real)
    requires Shape(t, s)
    ensures var e := RefillWindow(t, s, clock);
            && Shape(t, e.state)
            && e.state == s.(nextToSend := e.state.nextToSend, inflight := e.state.inflight)
            && s.nextToSend <= e.state.nextToSend
            && s.inflight <= e.state.inflight
            && (|e.state.inflight| == WINDOW_SIZE || e.state.nextToSend == t.total)
            && (forall m :: m in e.posts ==> exists i: nat :: i < e.state.nextToSend && m == t.Data(i))
    decreases t.total - s.nextToSend
  {
    if |s.inflight| < WINDOW_SIZE && s.nextToSend < t.total {
      var idx := s.nextToSend;
      SendNextShape(t, s, At(clock, idx));
      RefillShape(t, SendNext(s, At(clock, idx)), clock);
    }
  }

  lemma SendsNext(t: Transfer, s: SendState, stamp: real, i: nat)
    requires Shape(t, s) && |s.inflight| < WINDOW_SIZE && s.nextToSend < t.total
    ensures Shape(t, SendNext(s, stamp)) && SendNext(s, stamp).lastAcked == s.lastAcked
    ensures i > s.lastAcked ==> Sends(SendNext(s, stamp), i) == Sends(s, i) + if i == s.nextToSend then 1 else 0
  {
    SendNextShape(t, s, stamp);
  }

  lemma {:induction false} RefillCount(t: Transfer, s: SendState, clock: nat -> real, i: nat)
    requires Shape(t, s)
    ensures var e := RefillWindow(t, s, clock);
            && Shape(t, e.state) && e.state.lastAcked == s.lastAcked
            && (i > s.lastAcked ==> Sends(s, i) + Count(e.posts, t.Data(i)) == Sends(e.state, i))
            && (i <= s.lastAcked ==> Count(e.posts, t.Data(i)) == 0)
    decreases t.total - s.nextToSend
  {
    if |s.inflight| < WINDOW_SIZE && s.nextToSend < t.total {
      var idx := s.nextToSend;
      SendNextShape(t, s, At(clock, idx));
      var s' := SendNext(s, At(clock, idx));
      SendsNext(t, s, At(clock, idx), i);
      RefillShape(t, s', clock);
      RefillCount(t, s', clock, i);
      CountAppend([t.Data(idx)], RefillWindow(t, s', clock).posts, t.Data(i));
      CountOne(t.Data(idx), t.Data(i));
    }
  }

  lemma {:induction false} RefillCost(t: Transfer, s: SendState, clock: nat -> real)
    requires Shape(t, s)
    ensures var e := RefillWindow(t, s, clock);
            && CountData(e.posts) + Budget(t, e.state) == Budget(t, s)
            && CountData(e.posts) + Measure(t, e.state) == Measure(t, s)
            && (CountData(e.posts) == 0 ==> |s.inflight| == WINDOW_SIZE || s.nextToSend == t.total)
            && Count(e.posts, FIN_TIMEOUT) == 0
    decreases t.total - s.nextToSend
  {
    if |s.inflight| < WINDOW_SIZE && s.nextToSend < t.total {
      var idx := s.nextToSend;
      SendNextShape(t, s, At(clock, idx));
      var s' := SendNext(s, At(clock, idx));
      RefillCost(t, s', clock);
      SpareAppend(s.inflight, [Flight(idx, At(clock, idx), 0)]);
      CountDataAppend([t.Data(idx)], RefillWindow(t, s', clock).posts);
      CountAppend([t.Data(idx)], RefillWindow(t, s', clock).posts, FIN_TIMEOUT);
      CountOne(t.Data(idx), FIN_TIMEOUT);
    }
  }

  // The whole region

  /** The region keeps the window's shape, never touches what was acknowledged, and queues only chunks of the window. */
  lemma ServiceKeepsShape(t: Transfer, s: SendState, now: real, clock: nat -> real)
    requires Shape(t, s)
    ensures var e := Service(t, s, now, clock);
            && Shape(t, e.state)
            && e.state.lastAcked == s.lastAcked && e.state.acked == s.acked && e.state.metaAcked == s.metaAcked
            && s.nextToSend <= e.state.nextToSend
            && (s.finished ==> e.state.finished && e.state.nextToSend == s.nextToSend)
            && (forall m :: m in e.posts ==>
                  m == FIN_TIMEOUT || exists i: nat :: i < e.state.nextToSend && m == t.Data(i))
  {
    ResendShape(t, s.inflight, s.lastAcked + 1, now, clock);
    var r := RetransferExpired(t, s, now, clock);
    if !r.state.finished {
      RefillShape(t, r.state, clock);
    }
  }

  lemma SendsOfShape(t: Transfer, s: SendState, inflight: seq<Flight>, i: nat)
    requires Shape(t, s) && i > s.lastAcked
    requires |inflight| == |s.inflight| && Consecutive(inflight, s.lastAcked + 1)
    ensures var s' := s.(inflight := inflight);
            Sends(s', i) == Sends(s, i)
              + (var j := i - s.lastAcked - 1;
                 if i < s.nextToSend then inflight[j].retries - s.inflight[j].retries else 0)
  {
  }

  lemma RetransferShape(t: Transfer, s: SendState, now: real, clock: nat -> real)
    requires Shape(t, s)
    ensures var e := RetransferExpired(t, s, now, clock).state;
            Shape(t, e) && e == s.(inflight := e.inflight, finished := e.finished)
  {
    ResendShape(t, s.inflight, s.lastAcked + 1, now, clock);
  }

  lemma RetransferCount(t: Transfer, s: SendState, now: real, clock: nat -> real, i: nat)
    requires Shape(t, s)
    ensures var e := RetransferExpired(t, s, now, clock);
            && Shape(t, e.state) && e.state.lastAcked == s.lastAcked
            && (i > s.lastAcked ==> Sends(s, i) + Count(e.posts, t.Data(i)) == Sends(e.state, i))
            && (i <= s.lastAcked ==> Count(e.posts, t.Data(i)) == 0)
  {
    RetransferShape(t, s, now, clock);
    ResendCount(t, s.inflight, s.lastAcked + 1, now, clock, i);
    if i > s.lastAcked {
      SendsOfShape(t, s, RetransferExpired(t, s, now, clock).state.inflight, i);
    }
  }

  /** A chunk is queued exactly as often as the state says, and nothing acknowledged is queued again. */
  lemma ServiceCount(t: Transfer, s: SendState, now: real, clock: nat -> real, i: nat)
    requires Shape(t, s)
    ensures var e := Service(t, s, now, clock);
            && Shape(t, e.state) && e.state.lastAcked == s.lastAcked
            && (i > s.lastAcked ==> Sends(s, i) + Count(e.posts, t.Data(i)) == Sends(e.state, i) <= 1 + MAX_RETRIES)
            && (i <= s.lastAcked ==> Count(e.posts, t.Data(i)) == 0)
  {
    RetransferCount(t, s, now, clock, i);
    var r := RetransferExpired(t, s, now, clock);
    if !r.state.finished {
      RefillCount(t, r.state, clock, i);
      CountAppend(r.posts, RefillWindow(t, r.state, clock).posts, t.Data(i));
    }
  }

  /** Every DATA message costs one unit of the budget; at most one FIN, and only together with `finished`. */
  lemma ServiceCost(t: Transfer, s: SendState, now: real, clock: nat -> real)
    requires Shape(t, s)
    ensures var e := Service(t, s, now, clock);
            && CountData(e.posts) + Budget(t, e.state) == Budget(t, s)
            && Count(e.posts, FIN_TIMEOUT) <= 1
            && (Count(e.posts, FIN_TIMEOUT) == 1 ==> e.state.finished)
  {
    ResendShape(t, s.inflight, s.lastAcked + 1, now, clock);
    ResendCost(t, s.inflight, now, clock);
    var r := RetransferExpired(t, s, now, clock);
    if !r.state.finished {
      RefillCost(t, r.state, clock);
      CountDataAppend(r.posts, RefillWindow(t, r.state, clock).posts);
      CountAppend(r.posts, RefillWindow(t, r.state, clock).posts, FIN_TIMEOUT);
    }
  }

  /** The measure never rises, and a region that finds every entry expired lowers it unless the transfer is over. */
  lemma ServiceProgress(t: Transfer, s: SendState, now: real, clock: nat -> real)
    requires Shape(t, s)
    ensures var e := Service(t, s, now, clock);
            && 0 <= Measure(t, e.state) <= Measure(t, s)
            && (AllExpired(s.inflight, now) && !e.state.finished ==>
                  Measure(t, e.state) < Measure(t, s) || Complete(t, e.state))
  {
    ServiceKeepsShape(t, s, now, clock);
    ResendShape(t, s.inflight, s.lastAcked + 1, now, clock);
    ResendCost(t, s.inflight, now, clock);
    var r := RetransferExpired(t, s, now, clock);
    if !r.state.finished {
      RefillCost(t, r.state, clock);
    }
    SpareNonNegative(Service(t, s, now, clock).state.inflight);
  }

  // When a chunk is sent again

  /** With nothing older than 0.6 seconds the pass does nothing. */
  lemma {:induction false} NothingAgain(t: Transfer, inflight: seq<Flight>, now: real, clock: nat -> real)
    requires forall j :: 0 <= j < |inflight| ==> now - inflight[j].stamp < 0.6
    ensures Resend(t, inflight, now, clock) == Resent(inflight, [], false)
  {
    if inflight != [] {
      assert forall j :: 0 <= j < |inflight| - 1 ==> inflight[1..][j] == inflight[j + 1];
      NothingAgain(t, inflight[1..], now, clock);
      assert now - inflight[0].stamp < 0.6;
      assert [inflight[0]] + inflight[1..] == inflight;
    }
  }

  /** So the region only fills the window. */
  lemma YoungOnlyFills(t: Transfer, s: SendState, now: real, clock: nat -> real)
    requires !s.finished && forall j :: 0 <= j < |s.inflight| ==> now - s.inflight[j].stamp < 0.6
    ensures Service(t, s, now, clock) == RefillWindow(t, s, clock)
  {
    NothingAgain(t, s.inflight, now, clock);
    assert RetransferExpired(t, s, now, clock) == Effect(s, []);
    assert [] + RefillWindow(t, s, clock).posts == RefillWindow(t, s, clock).posts;
  }

  /** The entry makes the sender give up. */
  ghost predicate Hopeless(f: Flight, now: real) {
    now - f.stamp >= 0.6 && f.retries >= 10
  }

  ghost predicate GivesUpBefore(inflight: seq<Flight>, now: real, n: nat) {
    exists j :: 0 <= j < n && j < |inflight| && Hopeless(inflight[j], now)
  }

  lemma GivesUpTail(inflight: seq<Flight>, now: real, n: nat)
    requires inflight != []
    ensures GivesUpBefore(inflight, now, n + 1) <==> Hopeless(inflight[0], now) || GivesUpBefore(inflight[1..], now, n)
  {
    if GivesUpBefore(inflight, now, n + 1) && !Hopeless(inflight[0], now) {
      var j :| 0 <= j < n + 1 && j < |inflight| && Hopeless(inflight[j], now);
      assert inflight[1..][j - 1] == inflight[j];
    }
    if GivesUpBefore(inflight[1..], now, n) {
      var j :| 0 <= j < n && j < |inflight| - 1 && Hopeless(inflight[1..][j], now);
      assert inflight[j + 1] == inflight[1..][j];
    }
  }

  /**
   * Entry j is sent again, once, with a new stamp and one retry more, exactly if it is 0.6 seconds old and neither it
   * nor an earlier one makes the sender give up. Any other entry stays as it is.
   */
  lemma {:induction false} SentAgainIff(
      t: Transfer, inflight: seq<Flight>, base: nat, now: real, clock: nat -> real, j: nat)
    requires Consecutive(inflight, base) && j < |inflight|
    ensures var r := Resend(t, inflight, now, clock);
            var f := inflight[j];
            var again := now - f.stamp >= 0.6 && !GivesUpBefore(inflight, now, j + 1);
            && |r.inflight| == |inflight|
            && r.inflight[j] == (if again then Flight(f.idx, clock(f.idx), f.retries + 1) else f)
            && Count(r.posts, t.Data(f.idx)) == (if again then 1 else 0)
  {
    ResendCount(t, inflight, base, now, clock, base + j);
    GivesUpTail(inflight, now, j);
    if Hopeless(inflight[0], now) {
      assert Resend(t, inflight, now, clock) == Resent(inflight, [FIN_TIMEOUT], true);
    } else if j > 0 {
      assert Consecutive(inflight[1..], base + 1);
      SentAgainIff(t, inflight[1..], base + 1, now, clock, j - 1);
    }
  }

  /** The sender gives up exactly if an entry that is 0.6 seconds old has had its ten retries. */
  lemma {:induction false} GaveUpIff(t: Transfer, inflight: seq<Flight>, now: real, clock: nat -> real)
    ensures Resend(t, inflight, now, clock).gaveUp <==> GivesUpBefore(inflight, now, |inflight|)
    ensures Fin("error", "timeout") in Resend(t, inflight, now, clock).posts
            <==> GivesUpBefore(inflight, now, |inflight|)
  {
    if inflight != [] {
      GivesUpTail(inflight, now, |inflight| - 1);
      GaveUpIff(t, inflight[1..], now, clock);
    }
  }

  /** The entry of an unacknowledged chunk that has been sent. */
  function EntryOf(s: SendState, c: nat): Flight
    requires s.lastAcked < c < s.nextToSend && s.lastAcked + 1 + |s.inflight| == s.nextToSend
  {
    s.inflight[c - s.lastAcked - 1]
  }

  lemma NextEntry(t: Transfer, s: SendState, stamp: real, c: nat)
    requires Shape(t, s) && |s.inflight| < WINDOW_SIZE && s.nextToSend < t.total && s.lastAcked < c <= s.nextToSend
    ensures var s' := SendNext(s, stamp);
            && Shape(t, s') && s'.nextToSend == s.nextToSend + 1 && s'.lastAcked == s.lastAcked
            && EntryOf(s', c) == if c < s.nextToSend then EntryOf(s, c) else Flight(c, stamp, 0)
  {
    SendNextShape(t, s, stamp);
  }

  lemma {:induction false} FilledEntries(t: Transfer, s: SendState, clock: nat -> real, c: nat)
    requires Shape(t, s) && c > s.lastAcked
    ensures var e := RefillWindow(t, s, clock).state;
            && Shape(t, e) && e.lastAcked == s.lastAcked && s.nextToSend <= e.nextToSend
            && (c < s.nextToSend ==> EntryOf(e, c) == EntryOf(s, c))
            && (s.nextToSend <= c < e.nextToSend ==> EntryOf(e, c) == Flight(c, clock(c), 0))
    decreases t.total - s.nextToSend
  {
    if |s.inflight| < WINDOW_SIZE && s.nextToSend < t.total {
      var s' := SendNext(s, At(clock, s.nextToSend));
      if c <= s.nextToSend {
        NextEntry(t, s, At(clock, s.nextToSend), c);
      } else {
        SendNextShape(t, s, At(clock, s.nextToSend));
      }
      FilledEntries(t, s', clock, c);
    }
  }

  /** A chunk that fills the window is new, with the clock's reading and no retry. */
  lemma FilledStamps(t: Transfer, s: SendState, clock: nat -> real, c: nat)
    requires Shape(t, s) && c > s.lastAcked
    ensures var e := RefillWindow(t, s, clock);
            && Shape(t, e.state) && e.state.lastAcked == s.lastAcked && s.nextToSend <= e.state.nextToSend
            && (c < s.nextToSend ==> EntryOf(e.state, c) == EntryOf(s, c))
            && (s.nextToSend <= c < e.state.nextToSend ==> EntryOf(e.state, c) == Flight(c, clock(c), 0))
            && Count(e.posts, t.Data(c)) == (if s.nextToSend <= c < e.state.nextToSend then 1 else 0)
  {
    FilledEntries(t, s, clock, c);
    RefillCount(t, s, clock, c);
    SendsOfEntry(t, s, c);
    SendsOfEntry(t, RefillWindow(t, s, clock).state, c);
  }

  lemma SendsOfEntry(t: Transfer, s: SendState, c: nat)
    requires Shape(t, s) && c > s.lastAcked
    ensures Sends(s, c) == if c < s.nextToSend then 1 + EntryOf(s, c).retries else 0
  {
  }

  lemma RetransferStamp(t: Transfer, s: SendState, now: real, clock: nat -> real, c: nat)
    requires Shape(t, s) && s.lastAcked < c < s.nextToSend
    ensures var e := RetransferExpired(t, s, now, clock);
            var again := Count(e.posts, t.Data(c)) == 1;
            && Shape(t, e.state) && e.state.lastAcked == s.lastAcked && e.state.nextToSend == s.nextToSend
            && Count(e.posts, t.Data(c)) <= 1
            && (again ==> now - EntryOf(s, c).stamp >= 0.6 && EntryOf(e.state, c).stamp == clock(c))
            && (!again ==> EntryOf(e.state, c) == EntryOf(s, c))
  {
    RetransferShape(t, s, now, clock);
    SentAgainIff(t, s.inflight, s.lastAcked + 1, now, clock, c - s.lastAcked - 1);
  }

  /**
   * What the region does to a chunk: it queues it at most once; then its stamp is the reading of the clock, and if it
   * had been sent before, that was at least 0.6 seconds ago. Otherwise its entry stays as it was.
   */
  lemma ServiceStamp(t: Transfer, s: SendState, now: real, clock: nat -> real, c: nat)
    requires Shape(t, s) && c > s.lastAcked
    ensures var e := Service(t, s, now, clock);
            && Shape(t, e.state) && e.state.lastAcked == s.lastAcked && s.nextToSend <= e.state.nextToSend
            && Count(e.posts, t.Data(c)) <= 1
            && (Count(e.posts, t.Data(c)) == 1 ==>
                  && c < e.state.nextToSend && EntryOf(e.state, c).stamp == clock(c)
                  && (c < s.nextToSend ==> now - EntryOf(s, c).stamp >= 0.6))
            && (Count(e.posts, t.Data(c)) == 0 && c < s.nextToSend ==> EntryOf(e.state, c) == EntryOf(s, c))
  {
    var r := RetransferExpired(t, s, now, clock);
    if c < s.nextToSend {
      RetransferStamp(t, s, now, clock, c);
    } else {
      RetransferShape(t, s, now, clock);
      RetransferCount(t, s, now, clock, c);
    }
    if !r.state.finished {
      FilledStamps(t, r.state, clock, c);
      CountAppend(r.posts, RefillWindow(t, r.state, clock).posts, t.Data(c));
    }
  }

  // How long it can take

  /** Whole windows after the one with the first unacknowledged chunk, counted from the end of the file. */
  function WindowsLeft(total: nat, lastAcked: int): nat
    requires -1 <= lastAcked && lastAcked + 1 < total
  {
    (total - 2 - lastAcked) / WINDOW_SIZE
  }

  /** Of the chunks the window can hold, the one that is a whole number of windows away from the last chunk. */
  function Pivot(total: nat, lastAcked: int): (i: nat)
    requires -1 <= lastAcked && lastAcked + 1 < total
    ensures lastAcked < i <= lastAcked + WINDOW_SIZE && i < total
  {
    total - 1 - WINDOW_SIZE * WindowsLeft(total, lastAcked)
  }

  /**
   * How many regions that find everything expired can pass before the sender gives up or has no more to do: as often
   * as the pivot may still be sent, and then every later pivot in its turn.
   */
  function Turns(t: Transfer, s: SendState): int
    requires Shape(t, s)
  {
    if s.lastAcked + 1 >= t.total then 0
    else
      (MAX_RETRIES + 1) * (WindowsLeft(t.total, s.lastAcked) + 1) - Sends(s, Pivot(t.total, s.lastAcked))
  }

  lemma SendsAtMost(t: Transfer, s: SendState, i: nat)
    requires Shape(t, s) && i > s.lastAcked
    ensures Sends(s, i) <= MAX_RETRIES + 1
  {
  }

  lemma TurnsBounds(t: Transfer, s: SendState)
    requires Shape(t, s) && s.lastAcked + 1 < t.total
    ensures var k := WindowsLeft(t.total, s.lastAcked);
            (MAX_RETRIES + 1) * k <= Turns(t, s) <= (MAX_RETRIES + 1) * (k + 1)
  {
    SendsAtMost(t, s, Pivot(t.total, s.lastAcked));
  }

  lemma TurnsNonNegative(t: Transfer, s: SendState)
    requires Shape(t, s)
    ensures 0 <= Turns(t, s)
  {
    if s.lastAcked + 1 < t.total {
      TurnsBounds(t, s);
    }
  }

  /** Every entry is one retry older afterwards if everything had expired. */
  lemma {:induction false} ResendAges(t: Transfer, inflight: seq<Flight>, now: real, clock: nat -> real)
    requires AllExpired(inflight, now) && !Resend(t, inflight, now, clock).gaveUp
    ensures var r := Resend(t, inflight, now, clock);
            |r.inflight| == |inflight|
            && forall j :: 0 <= j < |inflight| ==> r.inflight[j].retries == inflight[j].retries + 1
  {
    if inflight != [] {
      assert AllExpired(inflight[1..], now) by {
        assert forall j :: 0 <= j < |inflight| - 1 ==> inflight[1..][j] == inflight[j + 1];
      }
      ResendAges(t, inflight[1..], now, clock);
    }
  }

  /** A region that finds everything expired and does not give up sends every chunk the window can hold. */
  lemma ServiceSends(t: Transfer, s: SendState, now: real, clock: nat -> real, i: nat)
    requires Shape(t, s) && s.lastAcked < i <= s.lastAcked + WINDOW_SIZE && i < t.total
    requires AllExpired(s.inflight, now) && !Service(t, s, now, clock).state.finished
    ensures var e := Service(t, s, now, clock).state;
            Shape(t, e) && e.lastAcked == s.lastAcked && Sends(s, i) < Sends(e, i)
  {
    var r := RetransferExpired(t, s, now, clock).state;
    RetransferCount(t, s, now, clock, i);
    RefillShape(t, r, clock);
    RefillCount(t, r, clock, i);
    if i < s.nextToSend {
      ResendAges(t, s.inflight, now, clock);
      SendsOfShape(t, s, r.inflight, i);
    }
  }

  /** No region adds turns; one that finds everything expired uses one up, ends the transfer or completes it. */
  lemma ServiceTurns(t: Transfer, s: SendState, now: real, clock: nat -> real)
    requires Shape(t, s)
    ensures var e := Service(t, s, now, clock).state;
            && Shape(t, e) && e.lastAcked == s.lastAcked
            && Turns(t, e) <= Turns(t, s)
            && (AllExpired(s.inflight, now) && !e.finished && s.lastAcked + 1 < t.total ==> Turns(t, e) < Turns(t, s))
  {
    ServiceKeepsShape(t, s, now, clock);
    if s.lastAcked + 1 < t.total {
      var i := Pivot(t.total, s.lastAcked);
      ServiceCount(t, s, now, clock, i);
      if AllExpired(s.inflight, now) && !Service(t, s, now, clock).state.finished {
        ServiceSends(t, s, now, clock, i);
      }
    }
  }

  lemma AcknowledgeTurns(t: Transfer, s: SendState, nextNeeded: int)
    requires Shape(t, s) && 0 <= nextNeeded <= s.nextToSend
    ensures Shape(t, Acknowledge(s, nextNeeded)) && Turns(t, Acknowledge(s, nextNeeded)) <= Turns(t, s)
  {
    AcknowledgeKeepsShape(t, s, nextNeeded);
    var s' := Acknowledge(s, nextNeeded);
    forall i: nat | i > s'.lastAcked
      ensures Sends(s', i) == Sends(s, i)
    {
      AcknowledgeSends(t, s, nextNeeded, i);
    }
    LaterTurns(t, s, s');
  }

  /** Acknowledging chunks never adds turns: the pivot stays, or it is one of a later window. */
  lemma LaterTurns(t: Transfer, s: SendState, s': SendState)
    requires Shape(t, s) && Shape(t, s') && s.lastAcked <= s'.lastAcked
    requires forall i: nat :: i > s'.lastAcked ==> Sends(s', i) == Sends(s, i)
    ensures Turns(t, s') <= Turns(t, s)
  {
    if s'.lastAcked + 1 >= t.total {
      TurnsNonNegative(t, s);
    } else if WindowsLeft(t.total, s'.lastAcked) == WindowsLeft(t.total, s.lastAcked) {
      var i := Pivot(t.total, s'.lastAcked);
      assert i == Pivot(t.total, s.lastAcked);
      assert Sends(s', i) == Sends(s, i);
    } else {
      EarlierWindow(t, s, s');
    }
  }

  lemma EarlierWindow(t: Transfer, s: SendState, s': SendState)
    requires Shape(t, s) && Shape(t, s') && s.lastAcked <= s'.lastAcked && s'.lastAcked + 1 < t.total
    requires WindowsLeft(t.total, s'.lastAcked) != WindowsLeft(t.total, s.lastAcked)
    ensures Turns(t, s') <= Turns(t, s)
  {
    TurnsBounds(t, s);
    TurnsBounds(t, s');
    FewerWindows(t.total, s.lastAcked, s'.lastAcked);
  }

  lemma FewerWindows(total: nat, lastAcked: int, lastAcked': int)
    requires -1 <= lastAcked <= lastAcked' && lastAcked' + 1 < total
    requires WindowsLeft(total, lastAcked') != WindowsLeft(total, lastAcked)
    ensures WindowsLeft(total, lastAcked') + 1 <= WindowsLeft(total, lastAcked)
  {
  }

  lemma MeasureNonNegative(t: Transfer, s: SendState)
    requires Shape(t, s)
    ensures 0 <= Measure(t, s) && 0 <= Budget(t, s)
  {
    SpareNonNegative(s.inflight);
  }

  /** What is still unacknowledged was queued as often as before. */
  lemma AcknowledgeSends(t: Transfer, s: SendState, nextNeeded: int, i: nat)
    requires Shape(t, s) && 0 <= nextNeeded <= s.nextToSend
    requires i > Acknowledge(s, nextNeeded).lastAcked
    ensures var s' := Acknowledge(s, nextNeeded);
            s'.lastAcked + 1 + |s'.inflight| == s'.nextToSend && Sends(s', i) == Sends(s, i)
  {
    var k := if nextNeeded <= s.lastAcked + 1 then 0 else nextNeeded - s.lastAcked - 1;
    NotBelowIsSuffix(s.inflight, s.lastAcked + 1, nextNeeded);
    SendsOfSuffix(s, Acknowledge(s, nextNeeded), k, i);
  }

  lemma SendsOfSuffix(s: SendState, s': SendState, k: nat, i: nat)
    requires s.lastAcked >= -1 && s.lastAcked + 1 + |s.inflight| == s.nextToSend == s'.nextToSend
    requires k <= |s.inflight| && s'.inflight == s.inflight[k..] && s'.lastAcked == s.lastAcked + k < i
    ensures s'.lastAcked + 1 + |s'.inflight| == s'.nextToSend && Sends(s', i) == Sends(s, i)
  {
    if i < s.nextToSend {
      assert s'.inflight[i - s'.lastAcked - 1] == s.inflight[i - s.lastAcked - 1];
    }
  }

  /** Acknowledgements never raise the measure or the budget. */
  lemma AcknowledgeProgress(t: Transfer, s: SendState, nextNeeded: int)
    requires Shape(t, s)
    requires 0 <= nextNeeded <= s.nextToSend
    ensures Measure(t, Acknowledge(s, nextNeeded)) <= Measure(t, s)
    ensures Budget(t, Acknowledge(s, nextNeeded)) <= Budget(t, s)
    ensures 0 <= Budget(t, Acknowledge(s, nextNeeded))
  {
    var k := if nextNeeded <= s.lastAcked + 1 then 0 else nextNeeded - s.lastAcked - 1;
    NotBelowIsSuffix(s.inflight, s.lastAcked + 1, nextNeeded);
    assert s.inflight == s.inflight[..k] + s.inflight[k..];
    SpareAppend(s.inflight[..k], s.inflight[k..]);
    SpareNonNegative(s.inflight[..k]);
    SpareNonNegative(s.inflight[k..]);
  }
}
