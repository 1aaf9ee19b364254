/**
 The terminal states of the three protocols in their own words: which reply, with which code or text, accepts an
 upgrade, and which commands then or before then are exposed.  `Starttls` proves that its analysers return them.
 */
module UpgradeStates {
  import opened Prelude
  import opened Upgrade

  function Upper(lx: Lexicon, s: Option<string>): string
  {
    lx.upper(match s case Some(text) => text case None => "")
  }

  predicate Sends(lx: Lexicon, e: Event, command: string) { e.kind == Request && Upper(lx, e.command) == command }

  /** The text of the event starts so. */
  predicate Says(lx: Lexicon, e: Event, prefix: string) { prefix <= Upper(lx, e.text) }

  ghost function StateBy(hello: bool, exposed: bool, leaks: bool, accepted: bool, asked: bool, advertised: bool)
    : Option<UpgradeState>
  {
    if exposed && !hello then Some(Violation)
    else if leaks then Some(PlaintextFallback)
    else if accepted then Some(if hello then TlsEstablished else Accepted)
    else if asked then Some(Requested)
    else if advertised then Some(Advertised)
    else None
  }

  /** `i` is the first reply after the latest `command` request before it, which stands at `k`. */
  ghost predicate FirstReply(lx: Lexicon, command: string, es: seq<Event>, k: int, i: int)
  {
    && 0 <= k < i < |es| && Sends(lx, es[k], command) && es[i].kind == Reply
    && forall m :: k < m < i ==> es[m].kind != Reply && !Sends(lx, es[m], command)
  }

  // ---------- SMTP ----------

  predicate SmtpPositive(e: Event)
  {
    match e.replyCode
    case Some(code) => 200 <= code <= 299
    case None => false
  }

  ghost predicate SmtpAccepts(lx: Lexicon, es: seq<Event>, i: int)
  {
    && 0 <= i < |es|
    && (|| es[i].kind == StartTls
        || (SmtpPositive(es[i]) && exists k :: FirstReply(lx, "STARTTLS", es, k, i)))
  }

  ghost predicate SmtpAcceptedBy(lx: Lexicon, es: seq<Event>, n: int)
  {
    exists j :: j < n && SmtpAccepts(lx, es, j)
  }

  ghost predicate SmtpLeaks(lx: Lexicon, es: seq<Event>, i: int)
  {
    0 <= i < |es| && Sends(lx, es[i], "AUTH") && !SmtpAcceptedBy(lx, es, i)
  }

  ghost predicate SmtpExposed(lx: Lexicon, es: seq<Event>, i: int)
  {
    && 0 <= i < |es| && SmtpAcceptedBy(lx, es, i)
    && (|| es[i].kind == Unexpected
        || (&& es[i].kind == Request
            && Upper(lx, es[i].command) !in ["EHLO", "HELO", "LHLO", "STARTTLS", "QUIT", "NOOP", "RSET", "HELP"]))
  }

  predicate SmtpAdvertises(lx: Lexicon, e: Event)
  {
    || (e.kind in {Capability, Reply} && "STARTTLS" in lx.split(Upper(lx, e.text)))
    || (e.kind == Reply && Upper(lx, e.command) == "STARTTLS" && e.replyCode == Some(250))
  }

  predicate SmtpExchanges(lx: Lexicon, e: Event)
  {
    e.kind == Capability || (e.kind == Reply && Upper(lx, e.command) in ["EHLO", "HELO", "LHLO"])
  }

  ghost function SmtpState(lx: Lexicon, hello: bool, es: seq<Event>): Option<UpgradeState>
  {
    StateBy(hello, exists i :: SmtpExposed(lx, es, i), exists i :: SmtpLeaks(lx, es, i),
            SmtpAcceptedBy(lx, es, |es|), exists e :: e in es && Sends(lx, e, "STARTTLS"),
            exists e :: e in es && SmtpAdvertises(lx, e))
  }

  /** A code that is cited as the reply to STARTTLS: an acceptance or a refusal. */
  predicate SmtpAnswer(e: Event)
  {
    match e.replyCode
    case Some(code) => 200 <= code <= 299 || code >= 400
    case None => false
  }

  ghost predicate SmtpCites(lx: Lexicon, hello: bool, es: seq<Event>, i: int)
  {
    && 0 <= i < |es|
    && (|| SmtpAdvertises(lx, es[i]) || Sends(lx, es[i], "STARTTLS") || es[i].kind == StartTls
        || (SmtpAnswer(es[i]) && exists k :: FirstReply(lx, "STARTTLS", es, k, i))
        || Sends(lx, es[i], "AUTH")
        || (!hello && SmtpExposed(lx, es, i)))
  }

  ghost predicate SmtpVerdict(lx: Lexicon, hello: bool, helloFrames: seq<nat>, es: seq<Event>, r: Assessment)
  {
    && r.state == SmtpState(lx, hello, es) && r.observed == r.state.Some?
    && (r.downgradeConsistent <==>
        && (exists e :: e in es && SmtpExchanges(lx, e)) && !(exists e :: e in es && SmtpAdvertises(lx, e))
        && (exists e :: e in es && Sends(lx, e, "STARTTLS")) && SmtpAcceptedBy(lx, es, |es|))
    && StrictlyIncreasing(r.frames)
    && forall n :: n in r.frames <==>
                     || (exists i :: SmtpCites(lx, hello, es, i) && es[i].frame == Some(n))
                     || (hello && SmtpAcceptedBy(lx, es, |es|) && n in helloFrames)
  }

  // ---------- IMAP ----------

  predicate ImapOkay(lx: Lexicon, e: Event) { Upper(lx, e.text) == "OK" || Says(lx, e, "OK ") }

  predicate ImapRefusal(lx: Lexicon, e: Event) { Says(lx, e, "NO") || Says(lx, e, "BAD") }

  /** A reply under another tag than the request's; a missing tag fits any. */
  predicate OtherTag(request: Event, reply: Event)
  {
    request.tag.Some? && reply.tag.Some? && request.tag.value != reply.tag.value
  }

  /** `i` is the first OK, NO or BAD, under its tag, to the latest STARTTLS request before it, which stands at `k`. */
  ghost predicate FirstAnswer(lx: Lexicon, es: seq<Event>, k: int, i: int)
  {
    && 0 <= k < i < |es| && Sends(lx, es[k], "STARTTLS") && es[i].kind == Reply && !OtherTag(es[k], es[i])
    && (ImapOkay(lx, es[i]) || ImapRefusal(lx, es[i]))
    && forall m :: k < m < i ==>
         && !Sends(lx, es[m], "STARTTLS")
         && (es[m].kind == Reply ==>
               OtherTag(es[k], es[m]) || (!ImapOkay(lx, es[m]) && !ImapRefusal(lx, es[m])))
  }

  ghost predicate ImapAccepts(lx: Lexicon, es: seq<Event>, i: int)
  {
    && 0 <= i < |es|
    && (es[i].kind == StartTls || (ImapOkay(lx, es[i]) && exists k :: FirstAnswer(lx, es, k, i)))
  }

  ghost predicate ImapAcceptedBy(lx: Lexicon, es: seq<Event>, n: int)
  {
    exists j :: j < n && ImapAccepts(lx, es, j)
  }

  ghost predicate ImapLeaks(lx: Lexicon, es: seq<Event>, i: int)
  {
    && 0 <= i < |es| && (Sends(lx, es[i], "LOGIN") || Sends(lx, es[i], "AUTHENTICATE"))
    && !ImapAcceptedBy(lx, es, i)
  }

  ghost predicate ImapExposed(lx: Lexicon, es: seq<Event>, i: int)
  {
    && 0 <= i < |es| && ImapAcceptedBy(lx, es, i)
    && (|| es[i].kind == Unexpected
        || (&& es[i].kind == Request
            && Upper(lx, es[i].command) !in ["CAPABILITY", "STARTTLS", "LOGOUT", "NOOP", "ID"]))
  }

  /** A comma separates tokens as white space does. */
  function Spaced(s: string): string
  {
    seq(|s|, i requires 0 <= i < |s| => if s[i] == ',' then ' ' else s[i])
  }

  predicate Lists(lx: Lexicon, e: Event, token: string) { token in lx.split(Spaced(Upper(lx, e.text))) }

  predicate ImapAdvertises(lx: Lexicon, e: Event) { e.kind in {Capability, Reply} && Lists(lx, e, "STARTTLS") }

  predicate ImapExchanges(lx: Lexicon, e: Event)
  {
    e.kind == Capability || Sends(lx, e, "CAPABILITY") || (e.kind == Reply && Lists(lx, e, "STARTTLS"))
  }

  ghost function ImapState(lx: Lexicon, hello: bool, es: seq<Event>): Option<UpgradeState>
  {
    StateBy(hello, exists i :: ImapExposed(lx, es, i), exists i :: ImapLeaks(lx, es, i),
            ImapAcceptedBy(lx, es, |es|), exists e :: e in es && Sends(lx, e, "STARTTLS"),
            exists e :: e in es && ImapAdvertises(lx, e))
  }

  ghost predicate ImapCites(lx: Lexicon, hello: bool, es: seq<Event>, i: int)
  {
    && 0 <= i < |es|
    && (|| ImapAdvertises(lx, es[i]) || Sends(lx, es[i], "STARTTLS") || es[i].kind == StartTls
        || (exists k :: FirstAnswer(lx, es, k, i))
        || Sends(lx, es[i], "LOGIN") || Sends(lx, es[i], "AUTHENTICATE")
        || (!hello && ImapExposed(lx, es, i)))
  }

  ghost predicate ImapVerdict(lx: Lexicon, hello: bool, helloFrames: seq<nat>, es: seq<Event>, r: Assessment)
  {
    && r.state == ImapState(lx, hello, es) && r.observed == r.state.Some?
    && (r.downgradeConsistent <==>
        && (exists e :: e in es && ImapExchanges(lx, e)) && !(exists e :: e in es && ImapAdvertises(lx, e))
        && (exists e :: e in es && Sends(lx, e, "STARTTLS")) && ImapAcceptedBy(lx, es, |es|))
    && StrictlyIncreasing(r.frames)
    && forall n :: n in r.frames <==>
                     || (exists i :: ImapCites(lx, hello, es, i) && es[i].frame == Some(n))
                     || (hello && ImapAcceptedBy(lx, es, |es|) && n in helloFrames)
  }

  // ---------- POP3 ----------

  ghost predicate Pop3Accepts(lx: Lexicon, es: seq<Event>, i: int)
  {
    && 0 <= i < |es|
    && (|| es[i].kind == StartTls
        || ((Says(lx, es[i], "+OK") || Says(lx, es[i], "OK")) && exists k :: FirstReply(lx, "STLS", es, k, i)))
  }

  ghost predicate Pop3AcceptedBy(lx: Lexicon, es: seq<Event>, n: int)
  {
    exists j :: j < n && Pop3Accepts(lx, es, j)
  }

  ghost predicate Pop3Leaks(lx: Lexicon, es: seq<Event>, i: int)
  {
    && 0 <= i < |es| && !Pop3AcceptedBy(lx, es, i)
    && (Sends(lx, es[i], "USER") || Sends(lx, es[i], "PASS") || Sends(lx, es[i], "APOP") || Sends(lx, es[i], "AUTH"))
  }

  ghost predicate Pop3Exposed(lx: Lexicon, es: seq<Event>, i: int)
  {
    && 0 <= i < |es| && Pop3AcceptedBy(lx, es, i)
    && (|| es[i].kind == Unexpected
        || (es[i].kind == Request && Upper(lx, es[i].command) !in ["CAPA", "STLS", "QUIT", "NOOP"]))
  }

  predicate Pop3Advertises(lx: Lexicon, e: Event)
  {
    || (e.kind in {Capability, Reply} && Lists(lx, e, "STLS"))
    || (e.kind == Capability && Upper(lx, e.command) == "STLS")
  }

  predicate Pop3Exchanges(lx: Lexicon, e: Event)
  {
    e.kind == Capability || Sends(lx, e, "CAPA") || (e.kind == Reply && Lists(lx, e, "STLS"))
  }

  ghost function Pop3State(lx: Lexicon, hello: bool, es: seq<Event>): Option<UpgradeState>
  {
    StateBy(hello, exists i :: Pop3Exposed(lx, es, i), exists i :: Pop3Leaks(lx, es, i),
            Pop3AcceptedBy(lx, es, |es|), exists e :: e in es && Sends(lx, e, "STLS"),
            exists e :: e in es && Pop3Advertises(lx, e))
  }

  predicate Pop3Answer(lx: Lexicon, e: Event)
  {
    Says(lx, e, "+OK") || Says(lx, e, "OK") || Says(lx, e, "-ERR") || Says(lx, e, "ERR")
  }

  ghost predicate Pop3Cites(lx: Lexicon, hello: bool, es: seq<Event>, i: int)
  {
    && 0 <= i < |es|
    && (|| Pop3Advertises(lx, es[i]) || Sends(lx, es[i], "STLS") || es[i].kind == StartTls
        || (Pop3Answer(lx, es[i]) && exists k :: FirstReply(lx, "STLS", es, k, i))
        || Sends(lx, es[i], "USER") || Sends(lx, es[i], "PASS") || Sends(lx, es[i], "APOP")
        || Sends(lx, es[i], "AUTH")
        || (!hello && Pop3Exposed(lx, es, i)))
  }

  ghost predicate Pop3Verdict(lx: Lexicon, hello: bool, helloFrames: seq<nat>, es: seq<Event>, r: Assessment)
  {
    && r.state == Pop3State(lx, hello, es) && r.observed == r.state.Some?
    && (r.downgradeConsistent <==>
        && (exists e :: e in es && Pop3Exchanges(lx, e)) && !(exists e :: e in es && Pop3Advertises(lx, e))
        && (exists e :: e in es && Sends(lx, e, "STLS")) && Pop3AcceptedBy(lx, es, |es|))
    && StrictlyIncreasing(r.frames)
    && forall n :: n in r.frames <==>
                     || (exists i :: Pop3Cites(lx, hello, es, i) && es[i].frame == Some(n))
                     || (hello && Pop3AcceptedBy(lx, es, |es|) && n in helloFrames)
  }

  // ---------- What they come to ----------

  /** Without a STARTTLS observation an upgrade takes a reply with a code from 200 to 299. */
  lemma SmtpNeedsPositiveReply(lx: Lexicon, hello: bool, helloFrames: seq<nat>, es: seq<Event>, r: Assessment)
    requires SmtpVerdict(lx, hello, helloFrames, es, r) && forall e :: e in es ==> e.kind != StartTls
    requires r.state == Some(Accepted) || r.state == Some(TlsEstablished)
    ensures exists k, i :: FirstReply(lx, "STARTTLS", es, k, i) && es[i].replyCode.Some? &&
                           200 <= es[i].replyCode.value < 300
  {
    var j :| j < |es| && SmtpAccepts(lx, es, j);
    assert es[j] in es;
  }

  lemma SmtpOneReply(
    lx: Lexicon, hello: bool, helloFrames: seq<nat>, request: Event, reply: Event, r: Assessment)
    requires SmtpVerdict(lx, hello, helloFrames, [request, reply], r)
    requires Sends(lx, request, "STARTTLS") && reply.kind == Reply
    ensures r.state == Some(if reply.replyCode.Some? && 200 <= reply.replyCode.value < 300
                            then (if hello then TlsEstablished else Accepted) else Requested)
    ensures request.frame == None && reply.frame.Some? && !hello && !SmtpAdvertises(lx, reply) ==>
              (reply.frame.value in r.frames <==>
               reply.replyCode.Some? && (200 <= reply.replyCode.value < 300 || reply.replyCode.value >= 400))
  {
    var es := [request, reply];
    assert FirstReply(lx, "STARTTLS", es, 0, 1);
    assert request in es;
    assert SmtpAccepts(lx, es, 1) <==> SmtpPositive(reply);
    assert SmtpCites(lx, hello, es, 1) <==> SmtpAnswer(reply) || SmtpAdvertises(lx, reply);
  }

  /** AUTH in clear text with neither a STARTTLS observation nor a positive reply before it. */
  lemma SmtpCredentials(
    lx: Lexicon, hello: bool, helloFrames: seq<nat>, es: seq<Event>, i: nat, r: Assessment)
    requires SmtpVerdict(lx, hello, helloFrames, es, r) && i < |es| && Sends(lx, es[i], "AUTH")
    requires forall j :: 0 <= j < i ==>
               && es[j].kind != StartTls
               && !(es[j].kind == Reply && es[j].replyCode.Some? && 200 <= es[j].replyCode.value < 300)
    ensures r.state == Some(PlaintextFallback) || r.state == Some(Violation)
  {
    assert SmtpLeaks(lx, es, i);
  }

  /** No answer begins in two ways. */
  lemma Initials(text: string)
    ensures "OK" <= text || "OK " <= text ==> text[0] == 'O'
    ensures "NO" <= text ==> text[0] == 'N'
    ensures "BAD" <= text ==> text[0] == 'B'
    ensures "+OK" <= text ==> text[0] == '+'
    ensures "-ERR" <= text ==> text[0] == '-'
  {
  }

  lemma ImapNeedsOk(lx: Lexicon, hello: bool, helloFrames: seq<nat>, es: seq<Event>, r: Assessment)
    requires ImapVerdict(lx, hello, helloFrames, es, r) && forall e :: e in es ==> e.kind != StartTls
    requires r.state == Some(Accepted) || r.state == Some(TlsEstablished)
    ensures exists k, i :: FirstAnswer(lx, es, k, i) && "OK" <= Upper(lx, es[i].text)
  {
    var j :| j < |es| && ImapAccepts(lx, es, j);
    assert es[j] in es;
  }

  /** OK under the request's tag accepts; NO, BAD and a reply under another tag do not. */
  lemma ImapOneReply(
    lx: Lexicon, hello: bool, helloFrames: seq<nat>, request: Event, reply: Event, r: Assessment)
    requires ImapVerdict(lx, hello, helloFrames, [request, reply], r)
    requires Sends(lx, request, "STARTTLS") && reply.kind == Reply
    ensures r.state == Some(if !OtherTag(request, reply) &&
                               (Upper(lx, reply.text) == "OK" || "OK " <= Upper(lx, reply.text))
                            then (if hello then TlsEstablished else Accepted) else Requested)
    ensures "NO" <= Upper(lx, reply.text) || "BAD" <= Upper(lx, reply.text) ==> r.state == Some(Requested)
    ensures reply.frame.Some? && !OtherTag(request, reply) && ImapRefusal(lx, reply) ==>
              reply.frame.value in r.frames
  {
    Initials(Upper(lx, reply.text));
    var es := [request, reply];
    assert FirstAnswer(lx, es, 0, 1) <==>
           !OtherTag(request, reply) && (ImapOkay(lx, reply) || ImapRefusal(lx, reply));
    assert request in es;
    assert ImapAccepts(lx, es, 1) <==> FirstAnswer(lx, es, 0, 1) && ImapOkay(lx, reply);
    assert ImapCites(lx, hello, es, 1) <==> FirstAnswer(lx, es, 0, 1) || ImapAdvertises(lx, reply);
  }

  lemma ImapCredentials(
    lx: Lexicon, hello: bool, helloFrames: seq<nat>, es: seq<Event>, i: nat, r: Assessment)
    requires ImapVerdict(lx, hello, helloFrames, es, r) && i < |es|
    requires Sends(lx, es[i], "LOGIN") || Sends(lx, es[i], "AUTHENTICATE")
    requires forall j :: 0 <= j < i ==>
               es[j].kind != StartTls && !(es[j].kind == Reply && "OK" <= Upper(lx, es[j].text))
    ensures r.state == Some(PlaintextFallback) || r.state == Some(Violation)
  {
    assert ImapLeaks(lx, es, i);
  }

  lemma Pop3NeedsOk(lx: Lexicon, hello: bool, helloFrames: seq<nat>, es: seq<Event>, r: Assessment)
    requires Pop3Verdict(lx, hello, helloFrames, es, r) && forall e :: e in es ==> e.kind != StartTls
    requires r.state == Some(Accepted) || r.state == Some(TlsEstablished)
    ensures exists k, i :: FirstReply(lx, "STLS", es, k, i) &&
                           ("+OK" <= Upper(lx, es[i].text) || "OK" <= Upper(lx, es[i].text))
  {
    var j :| j < |es| && Pop3Accepts(lx, es, j);
    assert es[j] in es;
  }

  lemma Pop3OneReply(
    lx: Lexicon, hello: bool, helloFrames: seq<nat>, request: Event, reply: Event, r: Assessment)
    requires Pop3Verdict(lx, hello, helloFrames, [request, reply], r)
    requires Sends(lx, request, "STLS") && reply.kind == Reply
    ensures r.state == Some(if "+OK" <= Upper(lx, reply.text) || "OK" <= Upper(lx, reply.text)
                            then (if hello then TlsEstablished else Accepted) else Requested)
    ensures "-ERR" <= Upper(lx, reply.text) ==> r.state == Some(Requested)
    ensures reply.frame.Some? && "-ERR" <= Upper(lx, reply.text) ==> reply.frame.value in r.frames
  {
    Initials(Upper(lx, reply.text));
    var es := [request, reply];
    assert FirstReply(lx, "STLS", es, 0, 1);
    assert request in es;
    assert Pop3Accepts(lx, es, 1) <==> Says(lx, reply, "+OK") || Says(lx, reply, "OK");
    assert Pop3Cites(lx, hello, es, 1) <==> Pop3Answer(lx, reply) || Pop3Advertises(lx, reply);
  }

  lemma Pop3Credentials(
    lx: Lexicon, hello: bool, helloFrames: seq<nat>, es: seq<Event>, i: nat, r: Assessment)
    requires Pop3Verdict(lx, hello, helloFrames, es, r) && i < |es|
    requires Sends(lx, es[i], "USER") || Sends(lx, es[i], "PASS") || Sends(lx, es[i], "APOP") ||
             Sends(lx, es[i], "AUTH")
    requires forall j :: 0 <= j < i ==>
               && es[j].kind != StartTls
               && !(es[j].kind == Reply && ("+OK" <= Upper(lx, es[j].text) || "OK" <= Upper(lx, es[j].text)))
    ensures r.state == Some(PlaintextFallback) || r.state == Some(Violation)
  {
    assert Pop3Leaks(lx, es, i);
  }
}
