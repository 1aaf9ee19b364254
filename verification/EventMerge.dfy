/**
 Correlation of Zeek and TShark session events: each TShark event is absorbed by the nearest Zeek event that is still
 free and compatible, within two seconds; what is not absorbed survives on its own.
 */
module EventMerge {
  import opened Prelude
  import opened Sorting
  import E = Evidence
  import U = Upgrade

  datatype Event = Event(
    kind: U.Kind, direction: E.Direction, command: Option<string>, tag: Option<string>, replyCode: Option<nat>,
    text: Option<string>, frame: Option<nat>)

  datatype Stamped = Stamped(ts: real, order: int, uid: string, event: Event, matched: bool)

  const MERGE_WINDOW_SECONDS: real := 2.0

  /** Whether `needle` occurs in `text`. */
  predicate Contains(text: string, needle: string)
  {
    needle <= text || (text != [] && Contains(text[1..], needle))
  }

  function FirstToken(lx: U.Lexicon, text: string): string
  {
    var tokens := lx.split(text);
    if tokens == [] then "" else tokens[0]
  }

  predicate TextsOverlap(lx: U.Lexicon, zeek: string, tshark: string)
  {
    && tshark != "" && zeek != ""
    && (Contains(zeek, tshark) || tshark <= zeek || FirstToken(lx, zeek) <= tshark)
  }

  predicate TagsAgree(a: Option<string>, b: Option<string>) { a.None? || b.None? || a == b }

  predicate Compatible(lx: U.Lexicon, z: Event, t: Event)
  {
    && z.direction == t.direction
    && TagsAgree(z.tag, t.tag)
    && var zcmd, tcmd := lx.upper(OrEmpty(z.command)), lx.upper(OrEmpty(t.command));
       || (z.kind == U.Request && t.kind == U.Request && zcmd == tcmd)
       || (z.kind == U.Reply && t.kind == U.Reply &&
           if z.replyCode.Some? && t.replyCode.Some? then z.replyCode == t.replyCode
           else TextsOverlap(lx, lx.upper(OrEmpty(z.text)), lx.upper(OrEmpty(t.text))) || (zcmd != "" && zcmd == tcmd))
  }

  // ---------- What compatible means ----------

  lemma {:induction false} ContainsMeans(text: string, needle: string)
    ensures Contains(text, needle) <==> exists i :: 0 <= i <= |text| && needle <= text[i..]
  {
    if needle <= text {
      assert text[0..] == text;
    } else if text != [] {
      ContainsMeans(text[1..], needle);
      if Contains(text[1..], needle) {
        var i :| 0 <= i <= |text[1..]| && needle <= text[1..][i..];
        assert text[1..][i..] == text[i + 1..];
      }
      if i :| 0 <= i <= |text| && needle <= text[i..] {
        assert i > 0 && text[i..] == text[1..][i - 1..];
      }
    }
  }

  /** Only a request can stand for a request, and only a reply for a reply, of the same side and without a tag clash. */
  lemma CompatibleOnlyIf(lx: U.Lexicon, z: Event, t: Event)
    requires Compatible(lx, z, t)
    ensures z.kind == t.kind && z.kind in {U.Request, U.Reply} && z.direction == t.direction
    ensures z.tag.Some? && t.tag.Some? ==> z.tag.value == t.tag.value
  {
  }

  /** Requests stand for each other iff they send the same command. */
  lemma CompatibleRequests(lx: U.Lexicon, z: Event, t: Event, command: string, other: string)
    requires z.kind == U.Request && t.kind == U.Request && z.direction == t.direction
    requires z.command == Some(command) && t.command == Some(other)
    requires z.tag.None? || t.tag.None? || z.tag == t.tag
    ensures Compatible(lx, z, t) <==> lx.upper(command) == lx.upper(other)
  {
  }

  /**
   Replies with codes stand for each other iff the codes are equal; if a code is missing, iff the TShark text occurs in
   the Zeek text or starts with its first token, or both answer the same command.
   */
  lemma CompatibleReplies(lx: U.Lexicon, z: Event, t: Event)
    requires z.kind == U.Reply && t.kind == U.Reply && z.direction == t.direction
    requires z.tag.None? || t.tag.None? || z.tag == t.tag
    ensures z.replyCode.Some? && t.replyCode.Some? ==>
              (Compatible(lx, z, t) <==> z.replyCode.value == t.replyCode.value)
    ensures z.replyCode.None? || t.replyCode.None? ==>
              var ztext, ttext := lx.upper(OrEmpty(z.text)), lx.upper(OrEmpty(t.text));
              var zcmd, tcmd := lx.upper(OrEmpty(z.command)), lx.upper(OrEmpty(t.command));
              (Compatible(lx, z, t) <==>
               || (&& ztext != "" && ttext != ""
                   && ((exists i :: 0 <= i <= |ztext| && ttext <= ztext[i..]) || FirstToken(lx, ztext) <= ttext))
               || (zcmd != "" && zcmd == tcmd))
  {
    var ztext, ttext := lx.upper(OrEmpty(z.text)), lx.upper(OrEmpty(t.text));
    ContainsMeans(ztext, ttext);
    assert ztext[0..] == ztext;
  }

  /** The Zeek event with the frame and tag that TShark saw; zero and the empty tag count as absent. */
  function WithEvidence(z: Event, t: Event): (r: Event)
    ensures r.(frame := z.frame, tag := z.tag) == z
    ensures TagsAgree(z.tag, t.tag) && z.tag.Some? ==> r.tag == z.tag
  {
    z.(frame := if t.frame.Some? && t.frame.value != 0 then t.frame else z.frame,
       tag := if t.tag.Some? && t.tag.value != "" then t.tag else z.tag)
  }

  /** A frame number and a tag of TShark are taken over; a missing or empty one leaves what Zeek had. */
  lemma EvidenceMeans(z: Event, t: Event)
    ensures WithEvidence(z, t).frame ==
            match t.frame
            case Some(n) => if n > 0 then Some(n) else z.frame
            case None => z.frame
    ensures WithEvidence(z, t).tag ==
            match t.tag
            case Some(tag) => if |tag| > 0 then Some(tag) else z.tag
            case None => z.tag
  {
  }

  predicate Commandless(t: Stamped) { t.event.kind == U.Request && t.event.command.None? }

  function Delta(z: Stamped, t: Stamped): real { if z.ts >= t.ts then z.ts - t.ts else t.ts - z.ts }

  predicate Candidate(lx: U.Lexicon, z: Stamped, t: Stamped)
  {
    !z.matched && z.uid == t.uid && Compatible(lx, z.event, t.event) && Delta(z, t) <= MERGE_WINDOW_SECONDS
  }

  /** The nearest candidate, the last of those equally near. */
  ghost predicate IsBest(lx: U.Lexicon, zs: seq<Stamped>, t: Stamped, best: Option<nat>)
  {
    match best
    case None => forall i :: 0 <= i < |zs| ==> !Candidate(lx, zs[i], t)
    case Some(b) =>
      && b < |zs| && Candidate(lx, zs[b], t)
      && forall i :: 0 <= i < |zs| && Candidate(lx, zs[i], t) ==>
           Delta(zs[b], t) < Delta(zs[i], t) || (Delta(zs[b], t) == Delta(zs[i], t) && i <= b)
  }

  method FindBest(lx: U.Lexicon, zeek: array<Stamped>, extra: Stamped) returns (best: Option<nat>)
    ensures IsBest(lx, zeek[..], extra, best)
  {
    best := None;
    var bestDelta := MERGE_WINDOW_SECONDS;
    for i := 0 to zeek.Length
      invariant IsBest(lx, zeek[..i], extra, best)
      invariant bestDelta == if best.Some? then Delta(zeek[..i][best.value], extra) else MERGE_WINDOW_SECONDS
      invariant bestDelta <= MERGE_WINDOW_SECONDS
    {
      var candidate := zeek[i];
      assert zeek[..i + 1] == zeek[..i] + [candidate];
      if candidate.matched || candidate.uid != extra.uid {
        continue;
      }
      if !Compatible(lx, candidate.event, extra.event) {
        continue;
      }
      var delta := Delta(candidate, extra);
      if delta <= bestDelta {
        best, bestDelta := Some(i), delta;
      }
    }
    assert zeek[..zeek.Length] == zeek[..];
  }

  // ---------- The matching ----------

  type Partners = seq<Option<nat>>

  function Absorb(z: Stamped, t: Stamped): Stamped { z.(event := WithEvidence(z.event, t.event), matched := true) }

  /** The Zeek events after the first `n` TShark events have found their partners. */
  function After(zs: seq<Stamped>, ts: seq<Stamped>, partner: Partners, n: nat): (r: seq<Stamped>)
    requires n <= |ts| && n <= |partner|
    requires forall j :: 0 <= j < n && partner[j].Some? ==> partner[j].value < |zs|
    ensures |r| == |zs|
  {
    if n == 0 then zs
    else
      var before := After(zs, ts, partner, n - 1);
      match partner[n - 1]
      case None => before
      case Some(i) => before[i := Absorb(before[i], ts[n - 1])]
  }

  ghost predicate InRange(zs: seq<Stamped>, partner: Partners)
  {
    forall j :: 0 <= j < |partner| && partner[j].Some? ==> partner[j].value < |zs|
  }

  /** Each TShark event in turn takes the best partner still free. */
  ghost predicate Greedy(lx: U.Lexicon, zs: seq<Stamped>, ts: seq<Stamped>, partner: Partners)
  {
    && |partner| <= |ts| && InRange(zs, partner)
    && forall j :: 0 <= j < |partner| ==> Chooses(lx, zs, ts, partner, j)
  }

  ghost predicate Chooses(lx: U.Lexicon, zs: seq<Stamped>, ts: seq<Stamped>, partner: Partners, j: nat)
    requires j < |partner| <= |ts| && InRange(zs, partner)
  {
    if Commandless(ts[j]) then partner[j] == None
    else IsBest(lx, After(zs, ts, partner, j), ts[j], partner[j])
  }

  predicate Survives(ts: seq<Stamped>, partner: Partners, j: nat)
    requires j < |ts| && j < |partner|
  {
    !Commandless(ts[j]) && partner[j].None?
  }

  function Survivors(ts: seq<Stamped>, partner: Partners, n: nat): seq<Stamped>
    requires n <= |ts| && n <= |partner|
  {
    if n == 0 then []
    else Survivors(ts, partner, n - 1) + if Survives(ts, partner, n - 1) then [ts[n - 1]] else []
  }

  predicate Earlier(a: Stamped, b: Stamped) { a.ts < b.ts || (a.ts == b.ts && a.order <= b.order) }

  ghost predicate Unmatched(xs: seq<Stamped>) { forall i :: 0 <= i < |xs| ==> !xs[i].matched }

  /** The TShark list after its first `n` events: used or command-less ones are flagged. */
  ghost predicate Flagged(ts: seq<Stamped>, now: seq<Stamped>, partner: Partners)
  {
    && |now| == |ts| && |partner| <= |ts|
    && (forall j :: 0 <= j < |partner| ==> now[j] == ts[j].(matched := !Survives(ts, partner, j)))
    && forall j :: |partner| <= j < |ts| ==> now[j] == ts[j]
  }

  lemma {:induction false} AfterPrefix(zs: seq<Stamped>, ts: seq<Stamped>, partner: Partners, p: Option<nat>, n: nat)
    requires n <= |partner| < |ts| && InRange(zs, partner) && (p.Some? ==> p.value < |zs|)
    ensures InRange(zs, partner + [p]) && After(zs, ts, partner + [p], n) == After(zs, ts, partner, n)
  {
    if n > 0 {
      AfterPrefix(zs, ts, partner, p, n - 1);
    }
  }

  lemma GreedyNext(lx: U.Lexicon, zs: seq<Stamped>, ts: seq<Stamped>, partner: Partners, p: Option<nat>)
    requires |partner| < |ts| && Greedy(lx, zs, ts, partner)
    requires var j := |partner|;
             if Commandless(ts[j]) then p == None else IsBest(lx, After(zs, ts, partner, j), ts[j], p)
    ensures Greedy(lx, zs, ts, partner + [p])
  {
    forall j | 0 <= j <= |partner| ensures InRange(zs, partner + [p]) && Chooses(lx, zs, ts, partner + [p], j) {
      AfterPrefix(zs, ts, partner, p, j);
      assert j < |partner| ==> Chooses(lx, zs, ts, partner, j);
    }
  }

  // ---------- The merge ----------

  method MergeEvents(lx: U.Lexicon, zeek: array<Stamped>, tshark: array<Stamped>)
    returns (merged: seq<Stamped>, ghost partner: Partners)
    requires zeek != tshark && Unmatched(zeek[..]) && Unmatched(tshark[..])
    modifies zeek, tshark
    ensures |partner| == tshark.Length && Greedy(lx, old(zeek[..]), old(tshark[..]), partner)
    ensures zeek[..] == After(old(zeek[..]), old(tshark[..]), partner, tshark.Length)
    ensures merged == SortBy(Earlier, zeek[..] + Survivors(old(tshark[..]), partner, tshark.Length))
  {
    ghost var zs, ts := zeek[..], tshark[..];
    partner := [];
    for j := 0 to tshark.Length
      invariant |partner| == j && Greedy(lx, zs, ts, partner)
      invariant zeek[..] == After(zs, ts, partner, j)
      invariant Flagged(ts, tshark[..], partner)
    {
      var extra := tshark[j];
      assert extra == ts[j];
      if extra.event.kind == U.Request && extra.event.command.None? {
        GreedyNext(lx, zs, ts, partner, None);
        AfterPrefix(zs, ts, partner, None, j);
        tshark[j] := extra.(matched := true);
        partner := partner + [None];
        continue;
      }
      var best := FindBest(lx, zeek, extra);
      GreedyNext(lx, zs, ts, partner, best);
      AfterPrefix(zs, ts, partner, best, j);
      partner := partner + [best];
      if best.None? {
        continue;
      }
      var b := best.value;
      zeek[b] := Absorb(zeek[b], extra);
      tshark[j] := extra.(matched := true);
    }
    var rest := Rest(tshark, ts, partner);
    merged := SortBy(Earlier, zeek[..] + rest);
  }

  /** The TShark events that nothing flagged. */
  method Rest(tshark: array<Stamped>, ghost ts: seq<Stamped>, ghost partner: Partners) returns (rest: seq<Stamped>)
    requires |partner| == tshark.Length && Flagged(ts, tshark[..], partner) && Unmatched(ts)
    ensures rest == Survivors(ts, partner, |ts|)
  {
    rest := [];
    for j := 0 to tshark.Length
      invariant rest == Survivors(ts, partner, j)
    {
      assert tshark[..][j] == ts[j].(matched := !Survives(ts, partner, j));
      assert !ts[j].matched;
      if !tshark[j].matched {
        rest := rest + [tshark[j]];
      }
    }
  }

  // ---------- What the matching is ----------

  ghost predicate TakenBefore(partner: Partners, n: int, i: nat)
  {
    exists j :: 0 <= j < n && j < |partner| && partner[j] == Some(i)
  }

  /** A Zeek event changes only when it is taken, and is flagged from then on. */
  lemma {:induction false} AfterMeans(zs: seq<Stamped>, ts: seq<Stamped>, partner: Partners, n: nat, i: nat)
    requires n <= |partner| <= |ts| && InRange(zs, partner) && Unmatched(zs) && i < |zs|
    ensures After(zs, ts, partner, n)[i].matched <==> TakenBefore(partner, n, i)
    ensures !TakenBefore(partner, n, i) ==> After(zs, ts, partner, n)[i] == zs[i]
  {
    if n > 0 {
      AfterMeans(zs, ts, partner, n - 1, i);
      assert TakenBefore(partner, n, i) <==> TakenBefore(partner, n - 1, i) || partner[n - 1] == Some(i);
    }
  }

  /** A candidate as the source lists give it: free so far, same connection, compatible, within the window. */
  ghost predicate FreeFit(lx: U.Lexicon, zs: seq<Stamped>, ts: seq<Stamped>, partner: Partners, j: nat, i: nat)
    requires j < |ts| && i < |zs|
  {
    && !TakenBefore(partner, j, i) && zs[i].uid == ts[j].uid && Compatible(lx, zs[i].event, ts[j].event)
    && Delta(zs[i], ts[j]) <= MERGE_WINDOW_SECONDS
  }

  /** The distance of two events: at most `w` iff one lies within `w` seconds of the other, before or after. */
  lemma DeltaMeans(z: Stamped, t: Stamped, w: real)
    ensures Delta(z, t) <= w <==> t.ts - w <= z.ts <= t.ts + w
  {
  }

  lemma CandidateIsFreeFit(lx: U.Lexicon, zs: seq<Stamped>, ts: seq<Stamped>, partner: Partners, j: nat, i: nat)
    requires j < |partner| <= |ts| && InRange(zs, partner) && Unmatched(zs) && i < |zs|
    ensures Candidate(lx, After(zs, ts, partner, j)[i], ts[j]) <==> FreeFit(lx, zs, ts, partner, j, i)
    ensures FreeFit(lx, zs, ts, partner, j, i) ==> After(zs, ts, partner, j)[i] == zs[i]
  {
    AfterMeans(zs, ts, partner, j, i);
  }

  /**
   The matching in terms of the two input lists: a partner was free, compatible, on the same connection and within two
   seconds, and nearest of all such; an event without one had none to take, or was a request without a command.
   */
  lemma PartnerIsNearest(lx: U.Lexicon, zs: seq<Stamped>, ts: seq<Stamped>, partner: Partners, j: nat)
    requires j < |partner| && Greedy(lx, zs, ts, partner) && Unmatched(zs)
    ensures ts[j].event.kind == U.Request && ts[j].event.command == None ==> partner[j].None?
    ensures !(ts[j].event.kind == U.Request && ts[j].event.command == None) && partner[j].None? ==>
              forall i :: 0 <= i < |zs| ==> !FreeFit(lx, zs, ts, partner, j, i)
    ensures partner[j].Some? ==>
              var b := partner[j].value;
              && FreeFit(lx, zs, ts, partner, j, b)
              && zs[b].uid == ts[j].uid && ts[j].ts - 2.0 <= zs[b].ts <= ts[j].ts + 2.0
              && forall i :: 0 <= i < |zs| && FreeFit(lx, zs, ts, partner, j, i) ==>
                 Delta(zs[b], ts[j]) <= Delta(zs[i], ts[j])
  {
    assert Chooses(lx, zs, ts, partner, j);
    var now := After(zs, ts, partner, j);
    forall i | 0 <= i < |zs|
      ensures Candidate(lx, now[i], ts[j]) <==> FreeFit(lx, zs, ts, partner, j, i)
      ensures FreeFit(lx, zs, ts, partner, j, i) ==> now[i] == zs[i]
    {
      CandidateIsFreeFit(lx, zs, ts, partner, j, i);
    }
  }

  /** No Zeek event is taken twice. */
  lemma MatchingIsInjective(lx: U.Lexicon, zs: seq<Stamped>, ts: seq<Stamped>, partner: Partners, j: nat, k: nat)
    requires Greedy(lx, zs, ts, partner) && Unmatched(zs) && j < k < |partner| && partner[j].Some?
    ensures partner[j] != partner[k]
  {
    PartnerIsNearest(lx, zs, ts, partner, k);
    assert TakenBefore(partner, k, partner[j].value);
  }

  /** Every Zeek event survives once, as itself or enriched by the one event it absorbed. */
  lemma {:induction false} ZeekEventSurvives(
    lx: U.Lexicon, zs: seq<Stamped>, ts: seq<Stamped>, partner: Partners, n: nat, i: nat)
    requires n <= |partner| && Greedy(lx, zs, ts, partner) && Unmatched(zs) && i < |zs|
    ensures |After(zs, ts, partner, n)| == |zs|
    ensures if TakenBefore(partner, n, i)
            then exists j :: 0 <= j < n && partner[j] == Some(i) && After(zs, ts, partner, n)[i] == Absorb(zs[i], ts[j])
            else After(zs, ts, partner, n)[i] == zs[i]
  {
    AfterMeans(zs, ts, partner, n, i);
    if n > 0 {
      var m := n - 1;
      ZeekEventSurvives(lx, zs, ts, partner, m, i);
      AfterMeans(zs, ts, partner, m, i);
      if partner[m] == Some(i) {
        PartnerIsNearest(lx, zs, ts, partner, m);
        assert After(zs, ts, partner, m)[i] == zs[i];
      }
    }
  }

  function AbsorbedCount(partner: Partners, n: nat): nat
    requires n <= |partner|
  {
    if n == 0 then 0 else AbsorbedCount(partner, n - 1) + if partner[n - 1].Some? then 1 else 0
  }

  function CommandlessCount(ts: seq<Stamped>, n: nat): nat
    requires n <= |ts|
  {
    if n == 0 then 0 else CommandlessCount(ts, n - 1) + if Commandless(ts[n - 1]) then 1 else 0
  }

  lemma {:induction false} SurvivorCount(lx: U.Lexicon, zs: seq<Stamped>, ts: seq<Stamped>, partner: Partners, n: nat)
    requires n <= |partner| && Greedy(lx, zs, ts, partner)
    ensures |Survivors(ts, partner, n)| + AbsorbedCount(partner, n) + CommandlessCount(ts, n) == n
  {
    if n > 0 {
      SurvivorCount(lx, zs, ts, partner, n - 1);
      assert Chooses(lx, zs, ts, partner, n - 1);
    }
  }

  lemma EarlierOrder()
    ensures TotalPreorder(Earlier)
  {
  }

  /** The merged list: in (time, order) order, exactly the Zeek events and the survivors, of exact length. */
  lemma MergedList(lx: U.Lexicon, zs: seq<Stamped>, ts: seq<Stamped>, partner: Partners, merged: seq<Stamped>)
    requires |partner| == |ts| && Greedy(lx, zs, ts, partner)
    requires merged == SortBy(Earlier, After(zs, ts, partner, |ts|) + Survivors(ts, partner, |ts|))
    ensures forall i, j :: 0 <= i < j < |merged| ==>
              merged[i].ts < merged[j].ts || (merged[i].ts == merged[j].ts && merged[i].order <= merged[j].order)
    ensures multiset(merged) == multiset(After(zs, ts, partner, |ts|)) + multiset(Survivors(ts, partner, |ts|))
    ensures |merged| == |zs| + |ts| - AbsorbedCount(partner, |ts|) - CommandlessCount(ts, |ts|)
  {
    EarlierOrder();
    SortSorted(Earlier, After(zs, ts, partner, |ts|) + Survivors(ts, partner, |ts|));
    SurvivorCount(lx, zs, ts, partner, |ts|);
  }
}
