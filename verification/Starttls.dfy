/**
 The three explicit-TLS analysers, each one loop over the events of a session, proved to compute the meaning that
 module `Upgrade` gives to the trace.

 Unicode upper-casing and white-space splitting are parameters (`Lexicon`): the results hold for any of them.
 */
module Starttls {
  import opened Prelude
  import opened Sorting
  import opened Keys
  import opened Upgrade
  import opened UpgradeStates

  function Text(lx: Lexicon, e: Event): string { lx.upper(OrEmpty(e.text)) }

  function Command(lx: Lexicon, e: Event): string { lx.upper(OrEmpty(e.command)) }

  function CommasToSpaces(s: string): string
  {
    seq(|s|, i requires 0 <= i < |s| => if s[i] == ',' then ' ' else s[i])
  }

  /** IMAP and POP3 capability tokens. */
  predicate HasToken(lx: Lexicon, token: string, e: Event)
  {
    token in lx.split(CommasToSpaces(Text(lx, e)))
  }

  // ---------- SMTP ----------

  const SMTP_HELLOS: set<string> := {"EHLO", "HELO", "LHLO"}
  const SMTP_CREDENTIALS: set<string> := {"AUTH"}
  const SMTP_HARMLESS: set<string> := {"EHLO", "HELO", "LHLO", "STARTTLS", "QUIT", "NOOP", "RSET", "HELP"}

  predicate SmtpExchange(lx: Lexicon, e: Event)
  {
    e.kind == Capability || (e.kind == Reply && Command(lx, e) in SMTP_HELLOS)
  }

  predicate SmtpAdvert(lx: Lexicon, e: Event)
  {
    || ((e.kind == Capability || e.kind == Reply) && "STARTTLS" in lx.split(Text(lx, e)))
    || (Command(lx, e) == "STARTTLS" && e.kind == Reply && e.replyCode == Some(250))
  }

  predicate Positive(e: Event) { e.replyCode.Some? && 200 <= e.replyCode.value < 300 }

  predicate Negative(e: Event) { e.replyCode.Some? && e.replyCode.value >= 400 }

  predicate SmtpStart(lx: Lexicon, e: Event) { e.kind == Request && Command(lx, e) == "STARTTLS" }

  predicate SmtpCredential(lx: Lexicon, e: Event) { Command(lx, e) in SMTP_CREDENTIALS }

  predicate SmtpHarmless(lx: Lexicon, e: Event) { Command(lx, e) in SMTP_HARMLESS }

  function SmtpDialect(lx: Lexicon): Dialect
  {
    Dialect(e => SmtpExchange(lx, e),
            e => SmtpAdvert(lx, e),
            e => SmtpStart(lx, e),
            (k: Event, e: Event) => Positive(e),
            (k: Event, e: Event) => true,
            (k: Event, e: Event) => Positive(e) || Negative(e),
            e => SmtpCredential(lx, e),
            e => SmtpHarmless(lx, e))
  }

  // ---------- IMAP ----------

  const IMAP_CREDENTIALS: set<string> := {"LOGIN", "AUTHENTICATE"}
  const IMAP_HARMLESS: set<string> := {"CAPABILITY", "STARTTLS", "LOGOUT", "NOOP", "ID"}

  predicate ImapExchange(lx: Lexicon, e: Event)
  {
    e.kind == Capability || (e.kind == Request && Command(lx, e) == "CAPABILITY")
      || (e.kind == Reply && HasToken(lx, "STARTTLS", e))
  }

  predicate ImapAdvert(lx: Lexicon, e: Event)
  {
    (e.kind == Capability || e.kind == Reply) && HasToken(lx, "STARTTLS", e)
  }

  predicate TagMatches(pending: Option<string>, tag: Option<string>)
  {
    pending.None? || tag.None? || tag == pending
  }

  predicate ImapOk(lx: Lexicon, e: Event) { Text(lx, e) == "OK" || "OK " <= Text(lx, e) }

  predicate ImapNoOrBad(lx: Lexicon, e: Event) { "NO" <= Text(lx, e) || "BAD" <= Text(lx, e) }

  predicate ImapStart(lx: Lexicon, e: Event) { e.kind == Request && Command(lx, e) == "STARTTLS" }

  predicate ImapCredential(lx: Lexicon, e: Event) { Command(lx, e) in IMAP_CREDENTIALS }

  predicate ImapHarmless(lx: Lexicon, e: Event) { Command(lx, e) in IMAP_HARMLESS }

  function ImapDialect(lx: Lexicon): Dialect
  {
    Dialect(e => ImapExchange(lx, e),
            e => ImapAdvert(lx, e),
            e => ImapStart(lx, e),
            (k: Event, e: Event) => TagMatches(k.tag, e.tag) && ImapOk(lx, e),
            (k: Event, e: Event) => TagMatches(k.tag, e.tag) && (ImapOk(lx, e) || ImapNoOrBad(lx, e)),
            (k: Event, e: Event) => TagMatches(k.tag, e.tag) && (ImapOk(lx, e) || ImapNoOrBad(lx, e)),
            e => ImapCredential(lx, e),
            e => ImapHarmless(lx, e))
  }

  // ---------- POP3 ----------

  const POP3_CREDENTIALS: set<string> := {"USER", "PASS", "APOP", "AUTH"}
  const POP3_HARMLESS: set<string> := {"CAPA", "STLS", "QUIT", "NOOP"}

  predicate Pop3Exchange(lx: Lexicon, e: Event)
  {
    (e.kind == Request && Command(lx, e) == "CAPA") || e.kind == Capability
      || (e.kind == Reply && HasToken(lx, "STLS", e))
  }

  predicate Pop3Advert(lx: Lexicon, e: Event)
  {
    || (e.kind == Capability && (HasToken(lx, "STLS", e) || Command(lx, e) == "STLS"))
    || (e.kind == Reply && HasToken(lx, "STLS", e))
  }

  predicate Pop3Ok(lx: Lexicon, e: Event) { "+OK" <= Text(lx, e) || "OK" <= Text(lx, e) }

  predicate Pop3Err(lx: Lexicon, e: Event) { "-ERR" <= Text(lx, e) || "ERR" <= Text(lx, e) }

  predicate Pop3Start(lx: Lexicon, e: Event) { e.kind == Request && Command(lx, e) == "STLS" }

  predicate Pop3Credential(lx: Lexicon, e: Event) { Command(lx, e) in POP3_CREDENTIALS }

  predicate Pop3Harmless(lx: Lexicon, e: Event) { Command(lx, e) in POP3_HARMLESS }

  function Pop3Dialect(lx: Lexicon): Dialect
  {
    Dialect(e => Pop3Exchange(lx, e),
            e => Pop3Advert(lx, e),
            e => Pop3Start(lx, e),
            (k: Event, e: Event) => Pop3Ok(lx, e),
            (k: Event, e: Event) => true,
            (k: Event, e: Event) => Pop3Ok(lx, e) || Pop3Err(lx, e),
            e => Pop3Credential(lx, e),
            e => Pop3Harmless(lx, e))
  }

  // ---------- Evidence frames ----------

  function Sorted(frames: seq<nat>): seq<nat> { SortBy((a: nat, b: nat) => a <= b, frames) }

  lemma SortedFrames(frames: seq<nat>)
    requires Distinct(frames)
    ensures StrictlyIncreasing(Sorted(frames))
    ensures forall n :: n in Sorted(frames) <==> n in frames
  {
    var le := (a: nat, b: nat) => a <= b;
    assert TotalPreorder(le);
    SortSorted(le, frames);
    SortMembers(le, frames);
    DistinctForgetsOrder(frames, SortBy(le, frames));
  }

  // ---------- The part common to the three loops ----------

  /** The protocol classifies the event so, given the outstanding request if there is one. */
  ghost predicate Classified(
    d: Dialect, f: Flags, e: Event, starts: bool, ok: bool, noted: bool, settles: bool, credential: bool,
    harmless: bool)
  {
    && d.start(e) == starts && d.credential(e) == credential && d.harmless(e) == harmless
    && (f.pending.Some? ==>
          var k := f.pending.value;
          d.accepts(k, e) == ok && d.noted(k, e) == noted && d.settles(k, e) == settles)
  }

  predicate Clear(e: Event, harmless: bool)
  {
    e.kind == Unexpected || (e.kind == Request && !harmless)
  }

  predicate Citing(
    accepted: bool, awaiting: bool, e: Event, hello: bool, starts: bool, noted: bool, credential: bool, harmless: bool)
  {
    || starts
    || e.kind == StartTls
    || (e.kind == Reply && awaiting && noted)
    || (e.kind == Request && credential)
    || (accepted && !hello && Clear(e, harmless))
  }

  /**
   The branches every analyser takes on an event, in their order: the upgrade request, the reply to it, a STARTTLS
   observation, an unexpected event, a credential command, any other request.
   */
  method Branch(
    event: Event, hello: bool, starts: bool, ok: bool, noted: bool, settles: bool, credential: bool, harmless: bool,
    requested0: bool, awaiting0: bool, accepted0: bool, violation0: bool, fallback0: bool, frames0: seq<nat>)
    returns (requested: bool, awaiting: bool, accepted: bool, violation: bool, fallback: bool, frames: seq<nat>)
    requires starts ==> event.kind == Request && harmless
    requires credential ==> !harmless
    requires ok ==> noted
    ensures requested == (requested0 || starts)
    ensures awaiting == (starts || (awaiting0 && !(event.kind == Reply && settles)))
    ensures accepted == (accepted0 || event.kind == StartTls || (awaiting0 && event.kind == Reply && ok))
    ensures violation == (violation0 || (accepted0 && !hello && Clear(event, harmless)))
    ensures fallback == (fallback0 || (event.kind == Request && credential && !accepted0))
    ensures frames ==
            if Citing(accepted0, awaiting0, event, hello, starts, noted, credential, harmless)
            then AddFrame(frames0, event) else frames0
  {
    requested, awaiting, accepted, violation, fallback, frames :=
      requested0, awaiting0, accepted0, violation0, fallback0, frames0;
    if starts {
      requested, awaiting, frames := true, true, AddFrame(frames, event);
      return;
    }
    if awaiting && event.kind == Reply {
      if ok {
        accepted := true;
      }
      if noted {
        frames := AddFrame(frames, event);
      }
      awaiting := !settles;
      return;
    }
    if event.kind == StartTls {
      accepted, frames := true, AddFrame(frames, event);
      return;
    }
    if event.kind == Unexpected {
      if accepted && !hello {
        violation, frames := true, AddFrame(frames, event);
      }
      return;
    }
    if event.kind == Request && credential {
      frames := AddFrame(frames, event);
      if accepted && !hello {
        violation := true;
      } else if !accepted {
        fallback := true;
      }
      return;
    }
    if event.kind == Request && !harmless && accepted && !hello {
      violation, frames := true, AddFrame(frames, event);
    }
  }

  lemma StepClassified(
    d: Dialect, f: Flags, e: Event, hello: bool,
    starts: bool, ok: bool, noted: bool, settles: bool, credential: bool, harmless: bool)
    requires Classified(d, f, e, starts, ok, noted, settles, credential, harmless)
    requires starts ==> e.kind == Request
    ensures var g := Step(d, hello, f, e);
            && g.requested == (f.requested || starts)
            && g.pending.Some? == (starts || (f.pending.Some? && !(e.kind == Reply && settles)))
            && g.accepted == (f.accepted || e.kind == StartTls || (f.pending.Some? && e.kind == Reply && ok))
            && g.violation == (f.violation || (f.accepted && !hello && Clear(e, harmless)))
            && g.fallback == (f.fallback || (e.kind == Request && credential && !f.accepted))
            && g.frames ==
               if d.advert(e) || Citing(f.accepted, f.pending.Some?, e, hello, starts, noted, credential, harmless)
               then AddFrame(f.frames, e) else f.frames
  {
    assert Cites(d, hello, f, e) <==>
           d.advert(e) || Citing(f.accepted, f.pending.Some?, e, hello, starts, noted, credential, harmless);
  }

  /** One event, against the step of the flags. */
  method React(
    ghost d: Dialect, ghost f: Flags, event: Event, hello: bool,
    starts: bool, ok: bool, noted: bool, settles: bool, credential: bool, harmless: bool,
    requested0: bool, awaiting0: bool, accepted0: bool, violation0: bool, fallback0: bool, frames0: seq<nat>)
    returns (requested: bool, awaiting: bool, accepted: bool, violation: bool, fallback: bool, frames: seq<nat>)
    requires Sensible(d) && Classified(d, f, event, starts, ok, noted, settles, credential, harmless)
    requires ok ==> noted
    requires requested0 == f.requested && accepted0 == f.accepted && violation0 == f.violation
    requires fallback0 == f.fallback && awaiting0 == f.pending.Some?
    requires frames0 == if d.advert(event) then AddFrame(f.frames, event) else f.frames
    ensures var g := Step(d, hello, f, event);
            && requested == g.requested && accepted == g.accepted && violation == g.violation
            && fallback == g.fallback && awaiting == g.pending.Some? && frames == g.frames
  {
    AddFrameTwice(f.frames, event);
    StepClassified(d, f, event, hello, starts, ok, noted, settles, credential, harmless);
    requested, awaiting, accepted, violation, fallback, frames := Branch(
      event, hello, starts, ok, noted, settles, credential, harmless,
      requested0, awaiting0, accepted0, violation0, fallback0, frames0);
  }

  method Conclude(
    ghost d: Dialect, ghost es: seq<Event>, hello: bool, helloFrames: seq<nat>, exchange: bool, advertised: bool,
    requested: bool, accepted: bool, violation: bool, fallback: bool, noted: seq<nat>)
    returns (r: Assessment)
    requires Sensible(d)
    requires var f := Fold(d, hello, es, |es|);
             && exchange == f.exchange && advertised == f.advertised && requested == f.requested
             && accepted == f.accepted && violation == f.violation && fallback == f.fallback && noted == f.frames
    ensures Correct(d, hello, helloFrames, es, r)
  {
    FoldMeaning(d, hello, es, |es|);
    var frames := noted;
    if accepted && hello {
      for i := 0 to |helloFrames|
        invariant Distinct(frames)
        invariant forall n :: n in frames <==> n in noted || n in helloFrames[..i]
      {
        if helloFrames[i] !in frames {
          frames := frames + [helloFrames[i]];
        }
      }
    }
    SortedFrames(frames);
    var state;
    if violation {
      state := Some(Violation);
    } else if fallback {
      state := Some(PlaintextFallback);
    } else if accepted && hello {
      state := Some(TlsEstablished);
    } else if accepted {
      state := Some(Accepted);
    } else if requested {
      state := Some(Requested);
    } else if advertised {
      state := Some(Advertised);
    } else {
      state := None;
    }
    r := Assessment(state, state.Some?, Sorted(frames), exchange && !advertised && requested && accepted);
  }

  lemma SomeEvent(p: Event -> bool, es: seq<Event>)
    ensures Some1(p, es, |es|) <==> exists e :: e in es && p(e)
  {
    if e :| e in es && p(e) {
      var i :| 0 <= i < |es| && es[i] == e;
    }
  }

  // ---------- The SMTP analyser ----------

  lemma SmtpDialectSensible(lx: Lexicon)
    ensures Sensible(SmtpDialect(lx))
  {
  }

  lemma SmtpAcceptsAt(lx: Lexicon, es: seq<Event>, i: int)
    requires 0 <= i < |es|
    ensures AcceptsAt(SmtpDialect(lx), es, i) <==> SmtpAccepts(lx, es, i)
  {
    if es[i].kind == Reply {
      forall k ensures Outstanding(SmtpDialect(lx), es, k, i) <==> FirstReply(lx, "STARTTLS", es, k, i) {
      }
    }
  }

  lemma SmtpAcceptedBefore(lx: Lexicon, es: seq<Event>, n: int)
    requires 0 <= n <= |es|
    ensures AcceptedBefore(SmtpDialect(lx), es, n) <==> SmtpAcceptedBy(lx, es, n)
  {
    forall i | 0 <= i < n ensures AcceptsAt(SmtpDialect(lx), es, i) <==> SmtpAccepts(lx, es, i) {
      SmtpAcceptsAt(lx, es, i);
    }
  }

  lemma SmtpSeen(lx: Lexicon, es: seq<Event>)
    ensures Some1(SmtpDialect(lx).start, es, |es|) <==> exists e :: e in es && Sends(lx, e, "STARTTLS")
    ensures Some1(SmtpDialect(lx).advert, es, |es|) <==> exists e :: e in es && SmtpAdvertises(lx, e)
    ensures Some1(SmtpDialect(lx).exchange, es, |es|) <==> exists e :: e in es && SmtpExchanges(lx, e)
  {
    SomeEvent(SmtpDialect(lx).start, es);
    SomeEvent(SmtpDialect(lx).advert, es);
    SomeEvent(SmtpDialect(lx).exchange, es);
  }

  lemma SmtpOutcome(lx: Lexicon, hello: bool, es: seq<Event>)
    ensures Outcome(SmtpDialect(lx), hello, es) == SmtpState(lx, hello, es)
  {
    forall i | 0 <= i < |es|
      ensures ViolatesAt(SmtpDialect(lx), es, i) <==> SmtpExposed(lx, es, i)
      ensures FallsBackAt(SmtpDialect(lx), es, i) <==> SmtpLeaks(lx, es, i)
    {
      SmtpAcceptedBefore(lx, es, i);
    }
    SmtpAcceptedBefore(lx, es, |es|);
    SmtpSeen(lx, es);
  }

  lemma SmtpCitedAt(lx: Lexicon, hello: bool, es: seq<Event>, i: int)
    requires 0 <= i < |es|
    ensures CitedAt(SmtpDialect(lx), hello, es, i) <==> SmtpCites(lx, hello, es, i)
  {
    SmtpAcceptedBefore(lx, es, i);
    if es[i].kind == Reply {
      forall k ensures Outstanding(SmtpDialect(lx), es, k, i) <==> FirstReply(lx, "STARTTLS", es, k, i) {
      }
    }
  }

  /** The dialect in the protocol's own words. */
  lemma SmtpMeaning(lx: Lexicon, hello: bool, helloFrames: seq<nat>, es: seq<Event>, r: Assessment)
    requires Correct(SmtpDialect(lx), hello, helloFrames, es, r)
    ensures SmtpVerdict(lx, hello, helloFrames, es, r)
  {
    SmtpOutcome(lx, hello, es);
    SmtpSeen(lx, es);
    SmtpAcceptedBefore(lx, es, |es|);
    forall i | 0 <= i < |es| ensures CitedAt(SmtpDialect(lx), hello, es, i) <==> SmtpCites(lx, hello, es, i) {
      SmtpCitedAt(lx, hello, es, i);
    }
  }

  method SmtpUpgrade(lx: Lexicon, events: seq<Event>, hello: bool, helloFrames: seq<nat>) returns (r: Assessment)
    ensures Correct(SmtpDialect(lx), hello, helloFrames, events, r)
    ensures SmtpVerdict(lx, hello, helloFrames, events, r)
  {
    ghost var d := SmtpDialect(lx);
    SmtpDialectSensible(lx);
    var exchange, advertised, requested, accepted, violation, fallback := false, false, false, false, false, false;
    var awaiting, frames: seq<nat> := false, [];
    for i := 0 to |events|
      invariant var f := Fold(d, hello, events, i);
                && exchange == f.exchange && advertised == f.advertised && requested == f.requested
                && accepted == f.accepted && violation == f.violation && fallback == f.fallback
                && awaiting == f.pending.Some? && frames == f.frames
    {
      var event := events[i];
      ghost var f := Fold(d, hello, events, i);
      FoldStep(d, hello, events, i);
      if SmtpExchange(lx, event) {
        exchange := true;
      }
      if SmtpAdvert(lx, event) {
        advertised := true;
        frames := AddFrame(frames, event);
      }
      var starts := SmtpStart(lx, event);
      var code := event.replyCode;
      var positive := code.Some? && 200 <= code.value < 300;
      var negative := code.Some? && code.value >= 400;
      requested, awaiting, accepted, violation, fallback, frames := React(
        d, f, event, hello, starts,
        positive, positive || negative, true, SmtpCredential(lx, event),
        SmtpHarmless(lx, event), requested, awaiting, accepted, violation, fallback, frames);
    }
    r := Conclude(
      d, events, hello, helloFrames, exchange, advertised, requested, accepted, violation, fallback, frames);
    SmtpMeaning(lx, hello, helloFrames, events, r);
  }

  // ---------- The IMAP analyser ----------

  method ImapCapabilities(lx: Lexicon, event: Event, exchange0: bool, advertised0: bool, frames0: seq<nat>)
    returns (exchange: bool, advertised: bool, frames: seq<nat>)
    ensures exchange == (exchange0 || ImapExchange(lx, event))
    ensures advertised == (advertised0 || ImapAdvert(lx, event))
    ensures frames == if ImapAdvert(lx, event) then AddFrame(frames0, event) else frames0
  {
    exchange, advertised, frames := exchange0, advertised0, frames0;
    var command := Command(lx, event);
    if event.kind == Capability || (event.kind == Request && command == "CAPABILITY") {
      exchange := true;
    }
    if event.kind == Capability && HasToken(lx, "STARTTLS", event) {
      advertised := true;
      frames := AddFrame(frames, event);
    }
    if event.kind == Reply && HasToken(lx, "STARTTLS", event) {
      advertised, exchange := true, true;
      frames := AddFrame(frames, event);
    }
  }

  lemma ImapDialectSensible(lx: Lexicon)
    ensures Sensible(ImapDialect(lx))
  {
  }

  lemma ImapAcceptsAt(lx: Lexicon, es: seq<Event>, i: int)
    requires 0 <= i < |es|
    ensures AcceptsAt(ImapDialect(lx), es, i) <==> ImapAccepts(lx, es, i)
  {
    if es[i].kind == Reply {
      forall k ensures Outstanding(ImapDialect(lx), es, k, i) && ImapDialect(lx).settles(es[k], es[i]) <==>
                       FirstAnswer(lx, es, k, i)
      {
      }
    }
  }

  lemma ImapAcceptedBefore(lx: Lexicon, es: seq<Event>, n: int)
    requires 0 <= n <= |es|
    ensures AcceptedBefore(ImapDialect(lx), es, n) <==> ImapAcceptedBy(lx, es, n)
  {
    forall i | 0 <= i < n ensures AcceptsAt(ImapDialect(lx), es, i) <==> ImapAccepts(lx, es, i) {
      ImapAcceptsAt(lx, es, i);
    }
  }

  lemma ImapSeen(lx: Lexicon, es: seq<Event>)
    ensures Some1(ImapDialect(lx).start, es, |es|) <==> exists e :: e in es && Sends(lx, e, "STARTTLS")
    ensures Some1(ImapDialect(lx).advert, es, |es|) <==> exists e :: e in es && ImapAdvertises(lx, e)
    ensures Some1(ImapDialect(lx).exchange, es, |es|) <==> exists e :: e in es && ImapExchanges(lx, e)
  {
    SomeEvent(ImapDialect(lx).start, es);
    SomeEvent(ImapDialect(lx).advert, es);
    SomeEvent(ImapDialect(lx).exchange, es);
  }

  lemma ImapOutcome(lx: Lexicon, hello: bool, es: seq<Event>)
    ensures Outcome(ImapDialect(lx), hello, es) == ImapState(lx, hello, es)
  {
    forall i | 0 <= i < |es|
      ensures ViolatesAt(ImapDialect(lx), es, i) <==> ImapExposed(lx, es, i)
      ensures FallsBackAt(ImapDialect(lx), es, i) <==> ImapLeaks(lx, es, i)
    {
      ImapAcceptedBefore(lx, es, i);
    }
    ImapAcceptedBefore(lx, es, |es|);
    ImapSeen(lx, es);
  }

  lemma ImapCitedAt(lx: Lexicon, hello: bool, es: seq<Event>, i: int)
    requires 0 <= i < |es|
    ensures CitedAt(ImapDialect(lx), hello, es, i) <==> ImapCites(lx, hello, es, i)
  {
    ImapAcceptedBefore(lx, es, i);
    if es[i].kind == Reply {
      forall k ensures Outstanding(ImapDialect(lx), es, k, i) && ImapDialect(lx).settles(es[k], es[i]) <==>
                       FirstAnswer(lx, es, k, i)
      {
      }
    }
  }

  /** The dialect in the protocol's own words. */
  lemma ImapMeaning(lx: Lexicon, hello: bool, helloFrames: seq<nat>, es: seq<Event>, r: Assessment)
    requires Correct(ImapDialect(lx), hello, helloFrames, es, r)
    ensures ImapVerdict(lx, hello, helloFrames, es, r)
  {
    ImapOutcome(lx, hello, es);
    ImapSeen(lx, es);
    ImapAcceptedBefore(lx, es, |es|);
    forall i | 0 <= i < |es| ensures CitedAt(ImapDialect(lx), hello, es, i) <==> ImapCites(lx, hello, es, i) {
      ImapCitedAt(lx, hello, es, i);
    }
  }

  method ImapUpgrade(lx: Lexicon, events: seq<Event>, hello: bool, helloFrames: seq<nat>) returns (r: Assessment)
    ensures Correct(ImapDialect(lx), hello, helloFrames, events, r)
    ensures ImapVerdict(lx, hello, helloFrames, events, r)
  {
    ghost var d := ImapDialect(lx);
    ImapDialectSensible(lx);
    var exchange, advertised, requested, accepted, violation, fallback := false, false, false, false, false, false;
    var awaiting, frames: seq<nat> := false, [];
    var pendingTag: Option<string> := None;
    for i := 0 to |events|
      invariant var f := Fold(d, hello, events, i);
                && exchange == f.exchange && advertised == f.advertised && requested == f.requested
                && accepted == f.accepted && violation == f.violation && fallback == f.fallback
                && awaiting == f.pending.Some? && frames == f.frames
      invariant awaiting ==> pendingTag == Fold(d, hello, events, i).pending.value.tag
    {
      var event := events[i];
      ghost var f := Fold(d, hello, events, i);
      FoldStep(d, hello, events, i);
      exchange, advertised, frames := ImapCapabilities(lx, event, exchange, advertised, frames);
      var starts := ImapStart(lx, event);
      var ok := TagMatches(pendingTag, event.tag) && ImapOk(lx, event);
      var answered := TagMatches(pendingTag, event.tag) && (ImapOk(lx, event) || ImapNoOrBad(lx, event));
      if starts {
        pendingTag := event.tag;
      } else if awaiting && event.kind == Reply && answered {
        pendingTag := None;
      }
      requested, awaiting, accepted, violation, fallback, frames := React(
        d, f, event, hello, starts, ok, answered, answered, ImapCredential(lx, event),
        ImapHarmless(lx, event), requested, awaiting, accepted, violation, fallback, frames);
    }
    r := Conclude(
      d, events, hello, helloFrames, exchange, advertised, requested, accepted, violation, fallback, frames);
    ImapMeaning(lx, hello, helloFrames, events, r);
  }

  // ---------- The POP3 analyser ----------

  method Pop3Capabilities(lx: Lexicon, event: Event, exchange0: bool, advertised0: bool, frames0: seq<nat>)
    returns (exchange: bool, advertised: bool, frames: seq<nat>)
    ensures exchange == (exchange0 || Pop3Exchange(lx, event))
    ensures advertised == (advertised0 || Pop3Advert(lx, event))
    ensures frames == if Pop3Advert(lx, event) then AddFrame(frames0, event) else frames0
  {
    exchange, advertised, frames := exchange0, advertised0, frames0;
    var command := Command(lx, event);
    if event.kind == Request && command == "CAPA" {
      exchange := true;
    }
    if event.kind == Capability {
      exchange := true;
      if HasToken(lx, "STLS", event) || command == "STLS" {
        advertised := true;
        frames := AddFrame(frames, event);
      }
    }
    if event.kind == Reply && HasToken(lx, "STLS", event) {
      advertised, exchange := true, true;
      frames := AddFrame(frames, event);
    }
  }

  lemma Pop3DialectSensible(lx: Lexicon)
    ensures Sensible(Pop3Dialect(lx))
  {
  }

  lemma Pop3AcceptsAt(lx: Lexicon, es: seq<Event>, i: int)
    requires 0 <= i < |es|
    ensures AcceptsAt(Pop3Dialect(lx), es, i) <==> Pop3Accepts(lx, es, i)
  {
    if es[i].kind == Reply {
      forall k ensures Outstanding(Pop3Dialect(lx), es, k, i) <==> FirstReply(lx, "STLS", es, k, i) {
      }
    }
  }

  lemma Pop3AcceptedBefore(lx: Lexicon, es: seq<Event>, n: int)
    requires 0 <= n <= |es|
    ensures AcceptedBefore(Pop3Dialect(lx), es, n) <==> Pop3AcceptedBy(lx, es, n)
  {
    forall i | 0 <= i < n ensures AcceptsAt(Pop3Dialect(lx), es, i) <==> Pop3Accepts(lx, es, i) {
      Pop3AcceptsAt(lx, es, i);
    }
  }

  lemma Pop3Seen(lx: Lexicon, es: seq<Event>)
    ensures Some1(Pop3Dialect(lx).start, es, |es|) <==> exists e :: e in es && Sends(lx, e, "STLS")
    ensures Some1(Pop3Dialect(lx).advert, es, |es|) <==> exists e :: e in es && Pop3Advertises(lx, e)
    ensures Some1(Pop3Dialect(lx).exchange, es, |es|) <==> exists e :: e in es && Pop3Exchanges(lx, e)
  {
    SomeEvent(Pop3Dialect(lx).start, es);
    SomeEvent(Pop3Dialect(lx).advert, es);
    SomeEvent(Pop3Dialect(lx).exchange, es);
  }

  lemma Pop3Outcome(lx: Lexicon, hello: bool, es: seq<Event>)
    ensures Outcome(Pop3Dialect(lx), hello, es) == Pop3State(lx, hello, es)
  {
    forall i | 0 <= i < |es|
      ensures ViolatesAt(Pop3Dialect(lx), es, i) <==> Pop3Exposed(lx, es, i)
      ensures FallsBackAt(Pop3Dialect(lx), es, i) <==> Pop3Leaks(lx, es, i)
    {
      Pop3AcceptedBefore(lx, es, i);
    }
    Pop3AcceptedBefore(lx, es, |es|);
    Pop3Seen(lx, es);
  }

  lemma Pop3CitedAt(lx: Lexicon, hello: bool, es: seq<Event>, i: int)
    requires 0 <= i < |es|
    ensures CitedAt(Pop3Dialect(lx), hello, es, i) <==> Pop3Cites(lx, hello, es, i)
  {
    Pop3AcceptedBefore(lx, es, i);
    if es[i].kind == Reply {
      forall k ensures Outstanding(Pop3Dialect(lx), es, k, i) <==> FirstReply(lx, "STLS", es, k, i) {
      }
    }
  }

  /** The dialect in the protocol's own words. */
  lemma Pop3Meaning(lx: Lexicon, hello: bool, helloFrames: seq<nat>, es: seq<Event>, r: Assessment)
    requires Correct(Pop3Dialect(lx), hello, helloFrames, es, r)
    ensures Pop3Verdict(lx, hello, helloFrames, es, r)
  {
    Pop3Outcome(lx, hello, es);
    Pop3Seen(lx, es);
    Pop3AcceptedBefore(lx, es, |es|);
    forall i | 0 <= i < |es| ensures CitedAt(Pop3Dialect(lx), hello, es, i) <==> Pop3Cites(lx, hello, es, i) {
      Pop3CitedAt(lx, hello, es, i);
    }
  }

  method Pop3Upgrade(lx: Lexicon, events: seq<Event>, hello: bool, helloFrames: seq<nat>) returns (r: Assessment)
    ensures Correct(Pop3Dialect(lx), hello, helloFrames, events, r)
    ensures Pop3Verdict(lx, hello, helloFrames, events, r)
  {
    ghost var d := Pop3Dialect(lx);
    Pop3DialectSensible(lx);
    var exchange, advertised, requested, accepted, violation, fallback := false, false, false, false, false, false;
    var awaiting, frames: seq<nat> := false, [];
    for i := 0 to |events|
      invariant var f := Fold(d, hello, events, i);
                && exchange == f.exchange && advertised == f.advertised && requested == f.requested
                && accepted == f.accepted && violation == f.violation && fallback == f.fallback
                && awaiting == f.pending.Some? && frames == f.frames
    {
      var event := events[i];
      ghost var f := Fold(d, hello, events, i);
      FoldStep(d, hello, events, i);
      exchange, advertised, frames := Pop3Capabilities(lx, event, exchange, advertised, frames);
      var starts := Pop3Start(lx, event);
      requested, awaiting, accepted, violation, fallback, frames := React(
        d, f, event, hello, starts,
        Pop3Ok(lx, event), Pop3Ok(lx, event) || Pop3Err(lx, event), true, Pop3Credential(lx, event),
        Pop3Harmless(lx, event), requested, awaiting, accepted, violation, fallback, frames);
    }
    r := Conclude(
      d, events, hello, helloFrames, exchange, advertised, requested, accepted, violation, fallback, frames);
    Pop3Meaning(lx, hello, helloFrames, events, r);
  }
}
