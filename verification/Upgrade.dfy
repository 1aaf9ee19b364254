/**
 What an explicit-TLS upgrade observation means, for SMTP, IMAP and POP3 alike.

 The meaning is declarative: predicates over positions of an event trace say when an upgrade is outstanding,
 accepted, violated or bypassed.  `Flags` is the state the analysers carry along a trace; `FoldMeaning` proves
 once, for any dialect, that the flags say exactly what the predicates say.
 */
module Upgrade {
  import opened Prelude
  import opened Keys

  datatype Kind = Request | Reply | Capability | StartTls | Confirmation | AmbiguousBanner | Unexpected

  datatype Event = Event(
    kind: Kind, command: Option<string>, tag: Option<string>, replyCode: Option<nat>,
    text: Option<string>, frame: Option<nat>)

  /** Unicode upper-casing and white-space splitting. */
  datatype Lexicon = Lexicon(upper: string -> string, split: string -> seq<string>)

  datatype UpgradeState = Advertised | Requested | Accepted | TlsEstablished | PlaintextFallback | Violation

  /** `observed` is false when the evidence state is "not observable". */
  datatype Assessment = Assessment(
    state: Option<UpgradeState>, observed: bool, frames: seq<nat>, downgradeConsistent: bool)

  /** How a protocol classifies events; the binary tests take the outstanding request and a reply. */
  datatype Dialect = Dialect(
    exchange: Event -> bool,
    advert: Event -> bool,
    start: Event -> bool,
    accepts: (Event, Event) -> bool,
    settles: (Event, Event) -> bool,
    noted: (Event, Event) -> bool,
    credential: Event -> bool,
    harmless: Event -> bool)

  /** Starting the upgrade is harmless, sending credentials is not. */
  ghost predicate Sensible(d: Dialect)
  {
    && (forall e :: d.start(e) ==> e.kind == Request && d.harmless(e))
    && (forall e :: d.credential(e) ==> !d.harmless(e))
  }

  // ---------- Declarative meaning ----------

  /** The request at `k` is the latest one before `i` and no reply in between has settled it. */
  ghost predicate Outstanding(d: Dialect, es: seq<Event>, k: int, i: int)
    requires i <= |es|
  {
    && 0 <= k < i && d.start(es[k])
    && forall m :: k < m < i ==> !d.start(es[m]) && !(es[m].kind == Reply && d.settles(es[k], es[m]))
  }

  /** The event at `i` accepts the upgrade: a STARTTLS observation, or an OK to the outstanding request. */
  ghost predicate AcceptsAt(d: Dialect, es: seq<Event>, i: int)
    requires 0 <= i < |es|
  {
    || es[i].kind == StartTls
    || (es[i].kind == Reply && exists k :: Outstanding(d, es, k, i) && d.accepts(es[k], es[i]))
  }

  ghost predicate AcceptedBefore(d: Dialect, es: seq<Event>, i: int)
    requires i <= |es|
  {
    exists j :: 0 <= j < i && AcceptsAt(d, es, j)
  }

  /** Clear text after acceptance. */
  ghost predicate ViolatesAt(d: Dialect, es: seq<Event>, i: int)
    requires 0 <= i < |es|
  {
    && AcceptedBefore(d, es, i)
    && (es[i].kind == Unexpected || (es[i].kind == Request && !d.harmless(es[i])))
  }

  /** Credentials in clear text before acceptance. */
  ghost predicate FallsBackAt(d: Dialect, es: seq<Event>, i: int)
    requires 0 <= i < |es|
  {
    es[i].kind == Request && d.credential(es[i]) && !AcceptedBefore(d, es, i)
  }

  ghost predicate CitedAt(d: Dialect, hello: bool, es: seq<Event>, i: int)
    requires 0 <= i < |es|
  {
    || d.advert(es[i])
    || d.start(es[i])
    || (es[i].kind == Reply && exists k :: Outstanding(d, es, k, i) && d.noted(es[k], es[i]))
    || es[i].kind == StartTls
    || (es[i].kind == Request && d.credential(es[i]))
    || (!hello && ViolatesAt(d, es, i))
  }

  ghost predicate Some1(d: Event -> bool, es: seq<Event>, n: int)
    requires n <= |es|
  {
    exists i :: 0 <= i < n && d(es[i])
  }

  ghost predicate SomeViolation(d: Dialect, es: seq<Event>, n: int)
    requires n <= |es|
  {
    exists i :: 0 <= i < n && ViolatesAt(d, es, i)
  }

  ghost predicate SomeFallback(d: Dialect, es: seq<Event>, n: int)
    requires n <= |es|
  {
    exists i :: 0 <= i < n && FallsBackAt(d, es, i)
  }

  ghost predicate SomeCitation(d: Dialect, hello: bool, es: seq<Event>, n: int, frame: nat)
    requires n <= |es|
  {
    exists i :: 0 <= i < n && CitedAt(d, hello, es, i) && es[i].frame == Some(frame)
  }

  /** The terminal state of a whole trace. */
  ghost function Outcome(d: Dialect, hello: bool, es: seq<Event>): Option<UpgradeState>
  {
    if !hello && SomeViolation(d, es, |es|) then Some(Violation)
    else if SomeFallback(d, es, |es|) then Some(PlaintextFallback)
    else if AcceptedBefore(d, es, |es|) then Some(if hello then TlsEstablished else Accepted)
    else if Some1(d.start, es, |es|) then Some(Requested)
    else if Some1(d.advert, es, |es|) then Some(Advertised)
    else None
  }

  /** The upgrade went through although it was never advertised in a capability exchange. */
  ghost predicate DowngradeConsistent(d: Dialect, es: seq<Event>)
  {
    && Some1(d.exchange, es, |es|) && !Some1(d.advert, es, |es|)
    && Some1(d.start, es, |es|) && AcceptedBefore(d, es, |es|)
  }

  ghost predicate StrictlyIncreasing(s: seq<nat>)
  {
    forall i, j :: 0 <= i < j < |s| ==> s[i] < s[j]
  }

  /** Everything the analysers promise about a trace. */
  ghost predicate Correct(d: Dialect, hello: bool, helloFrames: seq<nat>, es: seq<Event>, r: Assessment)
  {
    && r.state == Outcome(d, hello, es)
    && r.observed == r.state.Some?
    && r.downgradeConsistent == DowngradeConsistent(d, es)
    && StrictlyIncreasing(r.frames)
    && forall n :: n in r.frames <==>
                     || SomeCitation(d, hello, es, |es|, n)
                     || (hello && AcceptedBefore(d, es, |es|) && n in helloFrames)
  }

  // ---------- The flags of the analysers ----------

  datatype Flags = Flags(
    exchange: bool, advertised: bool, requested: bool, accepted: bool, violation: bool, fallback: bool,
    pending: Option<Event>, frames: seq<nat>)

  const START := Flags(false, false, false, false, false, false, None, [])

  /** Notes the frame of `e`, once. */
  function AddFrame(frames: seq<nat>, e: Event): seq<nat>
  {
    if e.frame.Some? && e.frame.value !in frames then frames + [e.frame.value] else frames
  }

  lemma AddFrameTwice(frames: seq<nat>, e: Event)
    ensures AddFrame(AddFrame(frames, e), e) == AddFrame(frames, e)
  {
  }

  function StepPending(d: Dialect, f: Flags, e: Event): Option<Event>
  {
    if d.start(e) then Some(e)
    else if f.pending.Some? && e.kind == Reply && d.settles(f.pending.value, e) then None
    else f.pending
  }

  predicate StepAccepted(d: Dialect, f: Flags, e: Event)
  {
    f.accepted || e.kind == StartTls || (f.pending.Some? && e.kind == Reply && d.accepts(f.pending.value, e))
  }

  predicate Exposes(d: Dialect, e: Event)
  {
    e.kind == Unexpected || (e.kind == Request && !d.harmless(e))
  }

  predicate StepViolation(d: Dialect, hello: bool, f: Flags, e: Event)
  {
    f.violation || (f.accepted && !hello && Exposes(d, e))
  }

  predicate StepFallback(d: Dialect, f: Flags, e: Event)
  {
    f.fallback || (e.kind == Request && d.credential(e) && !f.accepted)
  }

  predicate Cites(d: Dialect, hello: bool, f: Flags, e: Event)
  {
    || d.advert(e)
    || d.start(e)
    || e.kind == StartTls
    || (e.kind == Reply && f.pending.Some? && d.noted(f.pending.value, e))
    || (e.kind == Request && d.credential(e))
    || (f.accepted && !hello && Exposes(d, e))
  }

  function Step(d: Dialect, hello: bool, f: Flags, e: Event): Flags
  {
    Flags(f.exchange || d.exchange(e),
          f.advertised || d.advert(e),
          f.requested || d.start(e),
          StepAccepted(d, f, e),
          StepViolation(d, hello, f, e),
          StepFallback(d, f, e),
          StepPending(d, f, e),
          if Cites(d, hello, f, e) then AddFrame(f.frames, e) else f.frames)
  }

  /** The flags after the first `n` events. */
  function Fold(d: Dialect, hello: bool, es: seq<Event>, n: nat): Flags
    requires n <= |es|
  {
    if n == 0 then START else Step(d, hello, Fold(d, hello, es, n - 1), es[n - 1])
  }

  function StateOf(f: Flags, hello: bool): Option<UpgradeState>
  {
    if f.violation then Some(Violation)
    else if f.fallback then Some(PlaintextFallback)
    else if f.accepted && hello then Some(TlsEstablished)
    else if f.accepted then Some(Accepted)
    else if f.requested then Some(Requested)
    else if f.advertised then Some(Advertised)
    else None
  }

  // ---------- The flags mean what the predicates say ----------

  ghost predicate PendingMeans(d: Dialect, es: seq<Event>, n: nat, pending: Option<Event>)
    requires n <= |es|
  {
    match pending
    case Some(e) => exists k :: Outstanding(d, es, k, n) && es[k] == e
    case None => forall k :: !Outstanding(d, es, k, n)
  }

  /** The frames are those of the cited events, once each. */
  ghost predicate FramesMean(d: Dialect, hello: bool, es: seq<Event>, n: nat, frames: seq<nat>)
    requires n <= |es|
  {
    Distinct(frames) && forall frame :: frame in frames <==> SomeCitation(d, hello, es, n, frame)
  }

  ghost predicate Means(d: Dialect, hello: bool, es: seq<Event>, n: nat, f: Flags)
    requires n <= |es|
  {
    && PendingMeans(d, es, n, f.pending)
    && (f.exchange <==> Some1(d.exchange, es, n))
    && (f.advertised <==> Some1(d.advert, es, n))
    && (f.requested <==> Some1(d.start, es, n))
    && (f.accepted <==> AcceptedBefore(d, es, n))
    && (f.violation <==> !hello && SomeViolation(d, es, n))
    && (f.fallback <==> SomeFallback(d, es, n))
    && FramesMean(d, hello, es, n, f.frames)
  }

  /** At most one request is outstanding. */
  lemma OutstandingUnique(d: Dialect, es: seq<Event>, a: int, b: int, i: int)
    requires i <= |es|
    ensures Outstanding(d, es, a, i) && Outstanding(d, es, b, i) ==> a == b
  {
  }

  lemma SomeNext(p: Event -> bool, es: seq<Event>, n: nat)
    requires n < |es|
    ensures Some1(p, es, n + 1) <==> Some1(p, es, n) || p(es[n])
  {
  }

  /** A request still outstanding after the event at `n` was outstanding before it, unless it is that event. */
  lemma OutstandingEarlier(d: Dialect, es: seq<Event>, j: int, n: nat)
    requires n < |es|
    ensures Outstanding(d, es, j, n + 1) <==>
            if j == n then d.start(es[n])
            else Outstanding(d, es, j, n) && !d.start(es[n]) && !(es[n].kind == Reply && d.settles(es[j], es[n]))
  {
  }

  lemma PendingNext(d: Dialect, es: seq<Event>, n: nat, f: Flags)
    requires n < |es| && PendingMeans(d, es, n, f.pending)
    ensures PendingMeans(d, es, n + 1, StepPending(d, f, es[n]))
  {
    var e, next := es[n], n + 1;
    forall j ensures Outstanding(d, es, j, next) <==>
                     if j == n then d.start(e)
                     else Outstanding(d, es, j, n) && !d.start(e) && !(e.kind == Reply && d.settles(es[j], e))
    {
      OutstandingEarlier(d, es, j, n);
    }
    if d.start(e) {
      assert Outstanding(d, es, n, next);
    } else if f.pending.Some? {
      var k :| Outstanding(d, es, k, n) && es[k] == f.pending.value;
      forall j ensures Outstanding(d, es, j, n) ==> j == k {
        OutstandingUnique(d, es, j, k, n);
      }
      assert Outstanding(d, es, k, next) <==> !(e.kind == Reply && d.settles(es[k], e));
    }
  }

  /** What the pending request says about the reply at `n`. */
  lemma ReplyMeans(d: Dialect, es: seq<Event>, n: nat, pending: Option<Event>, p: (Event, Event) -> bool)
    requires n < |es| && PendingMeans(d, es, n, pending)
    ensures (exists k :: Outstanding(d, es, k, n) && p(es[k], es[n])) <==> pending.Some? && p(pending.value, es[n])
  {
    if pending.Some? {
      var k :| Outstanding(d, es, k, n) && es[k] == pending.value;
      forall j | Outstanding(d, es, j, n) ensures j == k {
        OutstandingUnique(d, es, j, k, n);
      }
    }
  }

  lemma AcceptedNext(d: Dialect, es: seq<Event>, n: nat, f: Flags)
    requires n < |es| && PendingMeans(d, es, n, f.pending)
    requires f.accepted <==> AcceptedBefore(d, es, n)
    ensures StepAccepted(d, f, es[n]) <==> AcceptedBefore(d, es, n + 1)
  {
    ReplyMeans(d, es, n, f.pending, d.accepts);
    assert AcceptedBefore(d, es, n + 1) <==> AcceptedBefore(d, es, n) || AcceptsAt(d, es, n);
  }

  lemma ViolationNext(d: Dialect, hello: bool, es: seq<Event>, n: nat, f: Flags)
    requires n < |es|
    requires f.accepted <==> AcceptedBefore(d, es, n)
    requires f.violation <==> !hello && SomeViolation(d, es, n)
    ensures StepViolation(d, hello, f, es[n]) <==> !hello && SomeViolation(d, es, n + 1)
  {
    assert SomeViolation(d, es, n + 1) <==> SomeViolation(d, es, n) || ViolatesAt(d, es, n);
  }

  lemma FallbackNext(d: Dialect, es: seq<Event>, n: nat, f: Flags)
    requires n < |es|
    requires f.accepted <==> AcceptedBefore(d, es, n)
    requires f.fallback <==> SomeFallback(d, es, n)
    ensures StepFallback(d, f, es[n]) <==> SomeFallback(d, es, n + 1)
  {
    assert SomeFallback(d, es, n + 1) <==> SomeFallback(d, es, n) || FallsBackAt(d, es, n);
  }

  /** A step cites its event exactly when the trace says so. */
  lemma CitesMeans(d: Dialect, hello: bool, es: seq<Event>, n: nat, f: Flags)
    requires n < |es| && PendingMeans(d, es, n, f.pending)
    requires f.accepted <==> AcceptedBefore(d, es, n)
    ensures Cites(d, hello, f, es[n]) <==> CitedAt(d, hello, es, n)
  {
    ReplyMeans(d, es, n, f.pending, d.noted);
    assert ViolatesAt(d, es, n) <==> f.accepted && Exposes(d, es[n]);
  }

  lemma FramesNext(d: Dialect, hello: bool, es: seq<Event>, n: nat, before: seq<nat>, after: seq<nat>)
    requires n < |es|
    requires FramesMean(d, hello, es, n, before)
    requires after == if CitedAt(d, hello, es, n) then AddFrame(before, es[n]) else before
    ensures FramesMean(d, hello, es, n + 1, after)
  {
    var next := n + 1;
    forall frame ensures frame in after <==> SomeCitation(d, hello, es, next, frame) {
      assert SomeCitation(d, hello, es, next, frame) <==>
             SomeCitation(d, hello, es, n, frame) || (CitedAt(d, hello, es, n) && es[n].frame == Some(frame));
    }
  }

  lemma MeansNext(d: Dialect, hello: bool, es: seq<Event>, n: nat, next: nat, f: Flags, g: Flags)
    requires n < |es| && next == n + 1 && Sensible(d) && Means(d, hello, es, n, f)
    requires g == Step(d, hello, f, es[n])
    ensures Means(d, hello, es, next, g)
  {
    PendingNext(d, es, n, f);
    SomeNext(d.exchange, es, n);
    SomeNext(d.advert, es, n);
    SomeNext(d.start, es, n);
    AcceptedNext(d, es, n, f);
    ViolationNext(d, hello, es, n, f);
    FallbackNext(d, es, n, f);
    CitesMeans(d, hello, es, n, f);
    FramesNext(d, hello, es, n, f.frames, g.frames);
  }

  lemma FoldStep(d: Dialect, hello: bool, es: seq<Event>, n: nat)
    requires n < |es|
    ensures Fold(d, hello, es, n + 1) == Step(d, hello, Fold(d, hello, es, n), es[n])
  {
  }

  lemma StartMeans(d: Dialect, hello: bool, es: seq<Event>)
    ensures Means(d, hello, es, 0, START)
  {
  }

  lemma {:induction false} FoldMeaning(d: Dialect, hello: bool, es: seq<Event>, n: nat)
    requires n <= |es| && Sensible(d)
    ensures Means(d, hello, es, n, Fold(d, hello, es, n))
  {
    if n == 0 {
      StartMeans(d, hello, es);
    } else {
      FoldMeaning(d, hello, es, n - 1);
      FoldStep(d, hello, es, n - 1);
      MeansNext(d, hello, es, n - 1, n, Fold(d, hello, es, n - 1), Fold(d, hello, es, n));
    }
  }

  lemma OutcomeOfFlags(d: Dialect, hello: bool, es: seq<Event>)
    requires Sensible(d)
    ensures StateOf(Fold(d, hello, es, |es|), hello) == Outcome(d, hello, es)
  {
    FoldMeaning(d, hello, es, |es|);
  }

  // ---------- Longer traces ----------

  function Rank(state: Option<UpgradeState>): nat
  {
    match state
    case None => 0
    case Some(Advertised) => 1
    case Some(Requested) => 2
    case Some(Accepted) => 3
    case Some(TlsEstablished) => 4
    case Some(PlaintextFallback) => 5
    case Some(Violation) => 6
  }

  lemma {:induction false} FoldOfPrefix(d: Dialect, hello: bool, es: seq<Event>, more: seq<Event>, n: nat)
    requires n <= |es|
    ensures Fold(d, hello, es + more, n) == Fold(d, hello, es, n)
  {
    if n > 0 {
      FoldOfPrefix(d, hello, es, more, n - 1);
      assert (es + more)[n - 1] == es[n - 1];
    }
  }

  lemma StepRaisesRank(d: Dialect, hello: bool, f: Flags, e: Event)
    ensures Rank(StateOf(f, hello)) <= Rank(StateOf(Step(d, hello, f, e), hello))
  {
  }

  lemma {:induction false} RankMonotone(d: Dialect, hello: bool, es: seq<Event>, m: nat, n: nat)
    requires m <= n <= |es|
    ensures Rank(StateOf(Fold(d, hello, es, m), hello)) <= Rank(StateOf(Fold(d, hello, es, n), hello))
    decreases n - m
  {
    if m < n {
      RankMonotone(d, hello, es, m, n - 1);
      StepRaisesRank(d, hello, Fold(d, hello, es, n - 1), es[n - 1]);
    }
  }

  /** Seeing more of a session never weakens the verdict. */
  lemma OutcomeNeverDrops(d: Dialect, hello: bool, es: seq<Event>, more: seq<Event>)
    requires Sensible(d)
    ensures var later := Outcome(d, hello, es + more);
            match Outcome(d, hello, es)
            case None => true
            case Some(Advertised) => later != None
            case Some(Requested) => later != None && later != Some(Advertised)
            case Some(Accepted) => later in {Some(Accepted), Some(PlaintextFallback), Some(Violation)}
            case Some(TlsEstablished) => later in {Some(TlsEstablished), Some(PlaintextFallback), Some(Violation)}
            case Some(PlaintextFallback) => later in {Some(PlaintextFallback), Some(Violation)}
            case Some(Violation) => later == Some(Violation)
  {
    OutcomeOfFlags(d, hello, es);
    OutcomeOfFlags(d, hello, es + more);
    FoldOfPrefix(d, hello, es, more, |es|);
    RankMonotone(d, hello, es + more, |es|, |es + more|);
  }
}
