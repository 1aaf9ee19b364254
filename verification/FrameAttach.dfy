/**
 TLS handshake messages from Zeek's history letters, and the attachment of TShark frame numbers to them: one queue of
 message positions per kind, each frame served from the head of its queue.
 */
module FrameAttach {
  import opened Prelude
  import opened Keys
  import opened Evidence

  datatype Kind =
    | DirectionFlip | HelloRequest | ClientHello | ServerHello | HelloRetryRequest | HelloVerifyRequest
    | NewSessionTicket | EndOfEarlyData | EncryptedExtensions | CertificateMessage | ServerKeyExchange
    | CertificateRequest | ServerHelloDone | CertificateVerify | ClientKeyExchange | Finished | CertificateUrl
    | CertificateStatus | SupplementalData | KeyUpdate | MessageHash | ChangeCipherSpec | Alert | Heartbeat
    | UnknownKind

  datatype Message = Message(kind: Kind, direction: Direction, letter: char, frame: Option<int>, state: EvidenceState)

  const MAX_HISTORY_LEN := 100

  // ---------- History letters ----------

  predicate IsUpper(c: char) { 'A' <= c <= 'Z' }

  function Lower(c: char): char { if IsUpper(c) then (c as int + 32) as char else c }

  function KindOf(c: char): Kind
  {
    match c
    case 'h' => HelloRequest
    case 'c' => ClientHello
    case 's' => ServerHello
    case 'j' => HelloRetryRequest
    case 'v' => HelloVerifyRequest
    case 't' => NewSessionTicket
    case 'e' => EndOfEarlyData
    case 'o' => EncryptedExtensions
    case 'x' => CertificateMessage
    case 'k' => ServerKeyExchange
    case 'r' => CertificateRequest
    case 'n' => ServerHelloDone
    case 'y' => CertificateVerify
    case 'g' => ClientKeyExchange
    case 'f' => Finished
    case 'w' => CertificateUrl
    case 'u' => CertificateStatus
    case 'a' => SupplementalData
    case 'p' => KeyUpdate
    case 'm' => MessageHash
    case 'i' => ChangeCipherSpec
    case 'l' => Alert
    case 'b' => Heartbeat
    case _ => UnknownKind
  }

  function LetterMessage(c: char): (m: Message)
    ensures m.letter == c && m.frame == None && (m.kind == DirectionFlip <==> c == '^')
  {
    if c == '^' then Message(DirectionFlip, Orig, c, None, Observed)
    else Message(KindOf(Lower(c)), if IsUpper(c) then Orig else Resp, c, None, Inferred)
  }

  function Bounded(history: string): string
  {
    if |history| <= MAX_HISTORY_LEN then history else history[..MAX_HISTORY_LEN]
  }

  /** One message per letter; the letters can be read back. */
  method MessagesFromHistory(history: string) returns (messages: seq<Message>)
    ensures |messages| == Min(|history|, 100)
    ensures Map((m: Message) => m.letter, messages) == Bounded(history)
    ensures forall i :: 0 <= i < |messages| ==> messages[i] == LetterMessage(history[i])
  {
    var letters := Bounded(history);
    messages := [];
    for i := 0 to |letters|
      invariant |messages| == i
      invariant forall j :: 0 <= j < i ==> messages[j] == LetterMessage(letters[j])
    {
      messages := messages + [LetterMessage(letters[i])];
    }
  }

  // ---------- Offers ----------

  datatype Frame = Frame(number: Option<int>, types: seq<int>, selectedGroup: Option<int>)

  /** A handshake record that TShark saw in a frame. */
  datatype Offer = Offer(frame: int, kind: Kind)

  function TypeKind(t: int, selectedGroup: Option<int>): (r: Option<Kind>)
    ensures r != Some(DirectionFlip)
  {
    if t == 2 && selectedGroup.Some? then Some(HelloRetryRequest)
    else
      match t
      case 1 => Some(ClientHello)
      case 2 => Some(ServerHello)
      case 4 => Some(NewSessionTicket)
      case 5 => Some(EndOfEarlyData)
      case 8 => Some(EncryptedExtensions)
      case 11 => Some(CertificateMessage)
      case 12 => Some(ServerKeyExchange)
      case 13 => Some(CertificateRequest)
      case 14 => Some(ServerHelloDone)
      case 15 => Some(CertificateVerify)
      case 16 => Some(ClientKeyExchange)
      case 20 => Some(Finished)
      case 24 => Some(KeyUpdate)
      case _ => None
  }

  function OfferOf(number: int, t: int, selectedGroup: Option<int>): seq<Offer>
  {
    var kind := TypeKind(t, selectedGroup);
    if kind.Some? then [Offer(number, kind.value)] else []
  }

  function OffersIn(f: Frame): seq<Offer>
  {
    if f.number.None? || f.number.value < 1 then []
    else FlatMap(t => OfferOf(f.number.value, t, f.selectedGroup), f.types)
  }

  // ---------- The letters of Zeek and the codes of TLS ----------

  /** The lower-case history letter of a kind of message. */
  function LetterOf(k: Kind): Option<char>
  {
    match k
    case DirectionFlip => None
    case HelloRequest => Some('h')
    case ClientHello => Some('c')
    case ServerHello => Some('s')
    case HelloRetryRequest => Some('j')
    case HelloVerifyRequest => Some('v')
    case NewSessionTicket => Some('t')
    case EndOfEarlyData => Some('e')
    case EncryptedExtensions => Some('o')
    case CertificateMessage => Some('x')
    case ServerKeyExchange => Some('k')
    case CertificateRequest => Some('r')
    case ServerHelloDone => Some('n')
    case CertificateVerify => Some('y')
    case ClientKeyExchange => Some('g')
    case Finished => Some('f')
    case CertificateUrl => Some('w')
    case CertificateStatus => Some('u')
    case SupplementalData => Some('a')
    case KeyUpdate => Some('p')
    case MessageHash => Some('m')
    case ChangeCipherSpec => Some('i')
    case Alert => Some('l')
    case Heartbeat => Some('b')
    case UnknownKind => None
  }

  /** The handshake type code of a kind, as in section 4 of RFC 8446 and section 7.4 of RFC 5246. */
  function CodeOf(k: Kind): Option<int>
  {
    match k
    case ClientHello => Some(1)
    case ServerHello => Some(2)
    case NewSessionTicket => Some(4)
    case EndOfEarlyData => Some(5)
    case EncryptedExtensions => Some(8)
    case CertificateMessage => Some(11)
    case ServerKeyExchange => Some(12)
    case CertificateRequest => Some(13)
    case ServerHelloDone => Some(14)
    case CertificateVerify => Some(15)
    case ClientKeyExchange => Some(16)
    case Finished => Some(20)
    case KeyUpdate => Some(24)
    case _ => None
  }

  /** Letters and kinds determine each other; any other letter gives an unknown message. */
  lemma LettersAreKinds(c: char, k: Kind)
    requires k != UnknownKind && k != DirectionFlip
    ensures KindOf(c) == k <==> LetterOf(k) == Some(c)
    ensures KindOf(c) == UnknownKind <==> forall j :: LetterOf(j) != Some(c)
  {
    if KindOf(c) != UnknownKind {
      assert LetterOf(KindOf(c)) == Some(c);
    }
  }

  /** A capital is the client's, a small letter the server's; a caret is a change of direction and seen as such. */
  lemma LettersHaveSides(c: char)
    ensures c == '^' <==> LetterMessage(c).kind == DirectionFlip
    ensures c != '^' ==>
              && LetterMessage(c).state == Inferred
              && (LetterMessage(c).direction == Orig <==> 65 <= c as int <= 90)
    ensures c == '^' ==> LetterMessage(c).state == Observed && LetterMessage(c).direction == Orig
  {
  }

  /** Both cases of a letter are the same kind of message. */
  lemma CaseOfLetter(c: char, d: char)
    requires 97 <= c as int <= 122 && d as int == c as int - 32
    ensures LetterMessage(c).kind == KindOf(c) && LetterMessage(d).kind == KindOf(c)
  {
    assert Lower(d) == c && Lower(c) == c;
  }

  /** Type codes and kinds determine each other, but a ServerHello with a selected group is a retry request. */
  lemma CodesAreKinds(t: int, selectedGroup: Option<int>, k: Kind)
    ensures TypeKind(t, selectedGroup) == Some(k) <==>
            if t == 2 && selectedGroup.Some? then k == HelloRetryRequest else CodeOf(k) == Some(t)
  {
  }

  /** A frame with a positive number offers itself once for every type code it can read. */
  lemma OffersMean(f: Frame, offer: Offer)
    ensures offer in OffersIn(f) <==>
            && f.number == Some(offer.frame) && offer.frame >= 1
            && exists t :: t in f.types && TypeKind(t, f.selectedGroup) == Some(offer.kind)
  {
    if f.number.Some? && f.number.value >= 1 {
      FlatMapMember(t => OfferOf(f.number.value, t, f.selectedGroup), f.types, offer);
    }
  }

  // ---------- The assignment ----------

  /** For each offer the message that took it, if any. */
  type Log = seq<Option<nat>>

  ghost predicate Taken(log: Log, n: int, i: nat)
  {
    exists o :: 0 <= o < n && o < |log| && log[o] == Some(i)
  }

  ghost predicate Free(messages: seq<Message>, log: Log, n: int, k: Kind, i: nat)
  {
    i < |messages| && messages[i].kind == k && k != DirectionFlip && !Taken(log, n, i)
  }

  /** The first message of kind `k` that the first `n` offers have left free. */
  ghost predicate FirstFree(messages: seq<Message>, log: Log, n: int, k: Kind, r: Option<nat>)
  {
    match r
    case None => forall i :: !Free(messages, log, n, k, i)
    case Some(f) => Free(messages, log, n, k, f) && forall i :: Free(messages, log, n, k, i) ==> f <= i
  }

  /** A retry request without a message of its own is served from the ServerHello queue. */
  ghost predicate Serves(messages: seq<Message>, log: Log, n: int, k: Kind, r: Option<nat>)
  {
    if (forall i :: !Free(messages, log, n, k, i)) && k == HelloRetryRequest
    then FirstFree(messages, log, n, ServerHello, r)
    else FirstFree(messages, log, n, k, r)
  }

  ghost predicate Served(messages: seq<Message>, offers: seq<Offer>, log: Log)
  {
    && |log| == |offers|
    && forall o :: 0 <= o < |log| ==> Serves(messages, log, o, offers[o].kind, log[o])
  }

  function Attach(m: Message, offer: Offer): Message
  {
    m.(kind := offer.kind, frame := Some(offer.frame), state := Observed)
  }

  /** What a message looks like once the offers have been served. */
  ghost predicate Updated(messages: seq<Message>, offers: seq<Offer>, log: Log, now: seq<Message>)
    requires |log| == |offers|
  {
    && |now| == |messages|
    && (forall i :: 0 <= i < |now| && !Taken(log, |log|, i) ==> now[i] == messages[i])
    && forall o :: 0 <= o < |log| && log[o].Some? ==>
         log[o].value < |messages| && now[log[o].value] == Attach(messages[log[o].value], offers[o])
  }

  ghost predicate Increasing(q: seq<nat>) { forall i, j :: 0 <= i < j < |q| ==> q[i] < q[j] }

  /** The queue of kind `k`: its free positions in order. */
  ghost predicate QueueOf(messages: seq<Message>, log: Log, k: Kind, q: seq<nat>)
  {
    Increasing(q) && forall i :: i in q <==> Free(messages, log, |log|, k, i)
  }

  function Queue(pending: map<Kind, seq<nat>>, k: Kind): seq<nat> { if k in pending then pending[k] else [] }

  ghost predicate QueuesOk(messages: seq<Message>, log: Log, pending: map<Kind, seq<nat>>)
  {
    forall k :: QueueOf(messages, log, k, Queue(pending, k))
  }

  /** The positions below `n` that hold kind `k`, in order. */
  ghost predicate Positions(messages: seq<Message>, n: nat, k: Kind, q: seq<nat>)
    requires n <= |messages|
  {
    Increasing(q) && forall j: nat :: j in q <==> j < n && messages[j].kind == k && k != DirectionFlip
  }

  lemma PositionsNext(messages: seq<Message>, n: nat, k: Kind, q: seq<nat>)
    requires n < |messages| && Positions(messages, n, k, q)
    ensures Positions(messages, n + 1, k, if k == messages[n].kind && k != DirectionFlip then q + [n] else q)
  {
    forall i | 0 <= i < |q| ensures q[i] < n {
      assert q[i] in q;
    }
  }

  method BuildQueues(messages: seq<Message>) returns (pending: map<Kind, seq<nat>>)
    ensures QueuesOk(messages, [], pending)
  {
    pending := map[];
    for i := 0 to |messages|
      invariant forall k :: Positions(messages, i, k, Queue(pending, k))
    {
      ghost var was, next := pending, i + 1;
      var kind := messages[i].kind;
      if kind != DirectionFlip {
        pending := pending[kind := Queue(pending, kind) + [i]];
      }
      forall k ensures Positions(messages, next, k, Queue(pending, k)) {
        PositionsNext(messages, i, k, Queue(was, k));
      }
    }
    forall k ensures QueueOf(messages, [], k, Queue(pending, k)) {
      assert Positions(messages, |messages|, k, Queue(pending, k));
    }
  }

  lemma HeadIsFirst(messages: seq<Message>, log: Log, k: Kind, q: seq<nat>)
    requires QueueOf(messages, log, k, q)
    ensures FirstFree(messages, log, |log|, k, if q == [] then None else Some(q[0]))
  {
    if q != [] {
      assert q[0] in q;
      forall i | Free(messages, log, |log|, k, i) ensures q[0] <= i {
        assert i in q;
        var j :| 0 <= j < |q| && q[j] == i;
      }
    }
  }

  lemma TakenNext(log: Log, r: Option<nat>, i: nat)
    ensures Taken(log + [r], |log| + 1, i) <==> Taken(log, |log|, i) || r == Some(i)
    ensures forall n :: n <= |log| ==> (Taken(log + [r], n, i) <==> Taken(log, n, i))
  {
    var next := log + [r];
    if Taken(log, |log|, i) {
      var o :| 0 <= o < |log| && log[o] == Some(i);
      assert next[o] == Some(i);
    }
    assert next[|log|] == r;
    forall n | n <= |log| ensures Taken(next, n, i) <==> Taken(log, n, i) {
      if Taken(log, n, i) {
        var o :| 0 <= o < n && o < |log| && log[o] == Some(i);
        assert next[o] == Some(i);
      }
    }
  }

  lemma QueueTail(messages: seq<Message>, log: Log, k: Kind, q: seq<nat>, f: nat)
    requires QueueOf(messages, log, k, q) && q != [] && q[0] == f
    ensures QueueOf(messages, log + [Some(f)], k, q[1..])
  {
    forall i ensures i in q[1..] <==> Free(messages, log + [Some(f)], |log| + 1, k, i) {
      TakenNext(log, Some(f), i);
      assert i in q <==> Free(messages, log, |log|, k, i);
      assert i in q <==> i == f || i in q[1..] by {
        assert q == [f] + q[1..];
      }
      assert f !in q[1..];
    }
  }

  lemma QueueKept(messages: seq<Message>, log: Log, k: Kind, q: seq<nat>, r: Option<nat>)
    requires QueueOf(messages, log, k, q)
    requires r.Some? ==> r.value < |messages| && messages[r.value].kind != k
    ensures QueueOf(messages, log + [r], k, q)
  {
    forall i ensures i in q <==> Free(messages, log + [r], |log| + 1, k, i) {
      TakenNext(log, r, i);
      assert i in q <==> Free(messages, log, |log|, k, i);
    }
  }

  lemma ServedNext(messages: seq<Message>, offers: seq<Offer>, log: Log, offer: Offer, r: Option<nat>)
    requires Served(messages, offers, log) && Serves(messages, log, |log|, offer.kind, r)
    ensures Served(messages, offers + [offer], log + [r])
  {
    var next := log + [r];
    forall i: nat, n | n <= |log| ensures Taken(next, n, i) <==> Taken(log, n, i) {
      TakenNext(log, r, i);
    }
    forall o | 0 <= o < |next| ensures Serves(messages, next, o, (offers + [offer])[o].kind, next[o]) {
      var k := (offers + [offer])[o].kind;
      SameServes(messages, log, next, o, k, next[o]);
      assert o < |log| ==> Serves(messages, log, o, offers[o].kind, log[o]);
    }
  }

  lemma SameServes(messages: seq<Message>, log: Log, next: Log, n: int, k: Kind, r: Option<nat>)
    requires forall i: nat :: Taken(next, n, i) <==> Taken(log, n, i)
    ensures Serves(messages, next, n, k, r) <==> Serves(messages, log, n, k, r)
  {
    forall j: Kind, i: nat ensures Free(messages, next, n, j, i) <==> Free(messages, log, n, j, i) {
    }
    forall j: Kind ensures FirstFree(messages, next, n, j, r) <==> FirstFree(messages, log, n, j, r) {
    }
  }

  // ---------- The loop ----------

  lemma QueuesNext(messages: seq<Message>, log: Log, pending: map<Kind, seq<nat>>, source: Kind)
    requires QueuesOk(messages, log, pending) && Queue(pending, source) != []
    ensures var q := Queue(pending, source);
            q[0] < |messages| && messages[q[0]].kind == source && !Taken(log, |log|, q[0])
            && QueuesOk(messages, log + [Some(q[0])], pending[source := q[1..]])
  {
    var q := Queue(pending, source);
    assert QueueOf(messages, log, source, q);
    assert q[0] in q;
    var next, pending' := log + [Some(q[0])], pending[source := q[1..]];
    forall k ensures QueueOf(messages, next, k, Queue(pending', k)) {
      assert QueueOf(messages, log, k, Queue(pending, k));
      if k == source {
        QueueTail(messages, log, k, q, q[0]);
      } else {
        QueueKept(messages, log, k, Queue(pending, k), Some(q[0]));
      }
    }
  }

  lemma QueuesSkip(messages: seq<Message>, log: Log, pending: map<Kind, seq<nat>>)
    requires QueuesOk(messages, log, pending)
    ensures QueuesOk(messages, log + [None], pending)
  {
    var next := log + [None];
    forall k ensures QueueOf(messages, next, k, Queue(pending, k)) {
      assert QueueOf(messages, log, k, Queue(pending, k));
      QueueKept(messages, log, k, Queue(pending, k), None);
    }
  }

  lemma UpdatedNext(
    messages: seq<Message>, offers: seq<Offer>, log: Log, now: seq<Message>, offer: Offer, r: Option<nat>)
    requires |log| == |offers| && Updated(messages, offers, log, now)
    requires r.Some? ==> r.value < |messages| && !Taken(log, |log|, r.value)
    ensures Updated(messages, offers + [offer], log + [r],
              if r.Some? then now[r.value := Attach(now[r.value], offer)] else now)
  {
    var next, offers' := log + [r], offers + [offer];
    var now' := if r.Some? then now[r.value := Attach(now[r.value], offer)] else now;
    forall i: nat | i < |now| && !Taken(next, |next|, i) ensures now'[i] == messages[i] {
      TakenNext(log, r, i);
    }
    forall o | 0 <= o < |next| && next[o].Some?
      ensures next[o].value < |messages| && now'[next[o].value] == Attach(messages[next[o].value], offers'[o])
    {
      if o < |log| {
        assert Taken(log, |log|, log[o].value);
        assert r != Some(log[o].value);
      }
    }
  }

  /** One offer: the head of its queue, or of the ServerHello queue for a retry request, takes it. */
  method Serve(
    ghost messages: seq<Message>, ghost offers: seq<Offer>, ghost log: Log, offer: Offer,
    pending: map<Kind, seq<nat>>, now: seq<Message>)
    returns (pending': map<Kind, seq<nat>>, now': seq<Message>, ghost r: Option<nat>)
    requires Served(messages, offers, log) && QueuesOk(messages, log, pending) && Updated(messages, offers, log, now)
    ensures Served(messages, offers + [offer], log + [r]) && QueuesOk(messages, log + [r], pending')
    ensures Updated(messages, offers + [offer], log + [r], now')
  {
    var source := offer.kind;
    assert QueueOf(messages, log, source, Queue(pending, source));
    HeadIsFirst(messages, log, source, Queue(pending, source));
    pending', now', r := pending, now, None;
    if Queue(pending, source) == [] {
      if source == HelloRetryRequest && Queue(pending, ServerHello) != [] {
        source := ServerHello;
      } else {
        assert QueueOf(messages, log, ServerHello, Queue(pending, ServerHello));
        HeadIsFirst(messages, log, ServerHello, Queue(pending, ServerHello));
        ServedNext(messages, offers, log, offer, None);
        QueuesSkip(messages, log, pending);
        UpdatedNext(messages, offers, log, now, offer, None);
        return;
      }
    }
    var indexes := Queue(pending, source);
    assert QueueOf(messages, log, source, indexes);
    HeadIsFirst(messages, log, source, indexes);
    QueuesNext(messages, log, pending, source);
    var target := indexes[0];
    r := Some(target);
    ServedNext(messages, offers, log, offer, r);
    UpdatedNext(messages, offers, log, now, offer, r);
    pending' := pending[source := indexes[1..]];
    now' := now[target := Attach(now[target], offer)];
  }

  method AttachFrames(messages: seq<Message>, frames: seq<Frame>)
    returns (updated: seq<Message>, ghost offers: seq<Offer>, ghost log: Log)
    ensures offers == FlatMap(OffersIn, frames)
    ensures Served(messages, offers, log) && Updated(messages, offers, log, updated)
    ensures |updated| == |messages|
    ensures forall i :: 0 <= i < |messages| ==> Keeps(messages[i], updated[i])
  {
    var pending := BuildQueues(messages);
    updated, offers, log := messages, [], [];
    for i := 0 to |frames|
      invariant offers == FlatMap(OffersIn, frames[..i])
      invariant Served(messages, offers, log) && QueuesOk(messages, log, pending)
      invariant Updated(messages, offers, log, updated)
    {
      var frame := frames[i];
      FlatMapSnoc(OffersIn, frames, i);
      if frame.number.None? || frame.number.value < 1 {
        continue;
      }
      var number := frame.number.value;
      ghost var before := offers;
      ghost var g := t => OfferOf(number, t, frame.selectedGroup);
      for j := 0 to |frame.types|
        invariant offers == before + FlatMap(g, frame.types[..j])
        invariant Served(messages, offers, log) && QueuesOk(messages, log, pending)
        invariant Updated(messages, offers, log, updated)
      {
        FlatMapSnoc(g, frame.types, j);
        var kind := TypeKind(frame.types[j], frame.selectedGroup);
        if kind.None? {
          continue;
        }
        var offer := Offer(number, kind.value);
        ghost var r;
        pending, updated, r := Serve(messages, offers, log, offer, pending, updated);
        offers, log := offers + [offer], log + [r];
      }
      assert frame.types[..|frame.types|] == frame.types;
    }
    assert frames[..|frames|] == frames;
    forall i | 0 <= i < |messages| ensures Keeps(messages[i], updated[i]) {
      AttachmentKeeps(messages, offers, log, updated, i);
    }
  }

  // ---------- What attachment promises ----------

  /** An offer is taken by a message of its kind, or a retry request by a ServerHello. */
  lemma TakerFits(messages: seq<Message>, offers: seq<Offer>, log: Log, o: nat)
    requires Served(messages, offers, log) && o < |log| && log[o].Some?
    ensures log[o].value < |messages| && !Taken(log, o, log[o].value)
    ensures var was := messages[log[o].value].kind;
            && was != DirectionFlip
            && (was == offers[o].kind || (was == ServerHello && offers[o].kind == HelloRetryRequest))
  {
    assert Serves(messages, log, o, offers[o].kind, log[o]);
  }

  /** No message takes two frames. */
  lemma AtMostOneFrame(messages: seq<Message>, offers: seq<Offer>, log: Log, o: nat, p: nat)
    requires Served(messages, offers, log) && o < p < |log| && log[o].Some?
    ensures log[o] != log[p]
  {
    assert Taken(log, p, log[o].value);
    if log[p].Some? {
      TakerFits(messages, offers, log, p);
    }
  }

  /** What attachment leaves alone. */
  predicate Keeps(was: Message, now: Message)
  {
    && now.direction == was.direction && now.letter == was.letter
    && (now.kind == was.kind || (was.kind == ServerHello && now.kind == HelloRetryRequest))
    && (now == was || (now.frame.Some? && now.state == Observed))
  }

  /** Attachment keeps count, direction and letter; it changes a kind only from ServerHello to HelloRetryRequest. */
  lemma AttachmentKeeps(messages: seq<Message>, offers: seq<Offer>, log: Log, updated: seq<Message>, i: nat)
    requires Served(messages, offers, log) && Updated(messages, offers, log, updated) && i < |messages|
    ensures |updated| == |messages|
    ensures Keeps(messages[i], updated[i])
    ensures !Taken(log, |log|, i) ==> updated[i] == messages[i]
    ensures Taken(log, |log|, i) ==> updated[i].frame.Some? && updated[i].state == Observed
  {
    if Taken(log, |log|, i) {
      var o :| 0 <= o < |log| && log[o] == Some(i);
      TakerFits(messages, offers, log, o);
      assert updated[log[o].value] == Attach(messages[i], offers[o]);
    }
  }

  /** A message that took an offer carries its frame number and its kind, as observed. */
  lemma TakerShowsOffer(messages: seq<Message>, offers: seq<Offer>, log: Log, updated: seq<Message>, o: nat)
    requires Served(messages, offers, log) && Updated(messages, offers, log, updated) && o < |log| && log[o].Some?
    ensures log[o].value < |updated|
    ensures updated[log[o].value].frame == Some(offers[o].frame)
    ensures updated[log[o].value].kind == offers[o].kind && updated[log[o].value].state == Observed
  {
    TakerFits(messages, offers, log, o);
  }

  /** First in, first out per original kind: a later message is served only after every earlier one. */
  lemma FirstInFirstOut(messages: seq<Message>, offers: seq<Offer>, log: Log, i: nat, j: nat, p: nat)
    requires Served(messages, offers, log) && i < j < |messages| && messages[i].kind == messages[j].kind
    requires p < |log| && log[p] == Some(j)
    ensures exists o :: 0 <= o < p && log[o] == Some(i)
  {
    TakerFits(messages, offers, log, p);
    var k := messages[j].kind;
    assert Serves(messages, log, p, offers[p].kind, log[p]);
    assert FirstFree(messages, log, p, k, log[p]);
    assert !Free(messages, log, p, k, i);
    assert Taken(log, p, i);
  }

  /** With frames in capture order, an earlier message of a kind never has a later frame. */
  lemma FramesFollowMessages(
    messages: seq<Message>, offers: seq<Offer>, log: Log, updated: seq<Message>, i: nat, j: nat)
    requires Served(messages, offers, log) && Updated(messages, offers, log, updated)
    requires forall o, p :: 0 <= o < p < |offers| ==> offers[o].frame <= offers[p].frame
    requires i < j < |messages| && messages[i].kind == messages[j].kind && Taken(log, |log|, j)
    ensures Taken(log, |log|, i) && updated[i].frame.Some? && updated[j].frame.Some?
    ensures updated[i].frame.value <= updated[j].frame.value
  {
    var p :| 0 <= p < |log| && log[p] == Some(j);
    FirstInFirstOut(messages, offers, log, i, j, p);
    var o :| 0 <= o < p && log[o] == Some(i);
    assert updated[log[o].value] == Attach(messages[i], offers[o]);
    assert updated[log[p].value] == Attach(messages[j], offers[p]);
  }

  /**
   No frame is wasted: an offer nobody took found every message of its kind already served, and a retry request every
   ServerHello too.
   */
  lemma NoOfferWasted(messages: seq<Message>, offers: seq<Offer>, log: Log, o: nat, i: nat)
    requires Served(messages, offers, log) && o < |log| && log[o].None? && i < |messages|
    requires || (messages[i].kind == offers[o].kind && messages[i].kind != DirectionFlip)
             || (messages[i].kind == ServerHello && offers[o].kind == HelloRetryRequest)
    ensures Taken(log, o, i)
  {
    assert Serves(messages, log, o, offers[o].kind, log[o]);
    assert !Free(messages, log, o, messages[i].kind, i);
  }
}
