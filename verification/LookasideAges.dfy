/**
 How the lookaside cache forgets (replay.c): what one search leaves of the cache, and where an
 answer that is sent again can come from, over any sequence of requests. Two minutes are 120 s.
 */
module LookasideAges {
  import opened Options
  import opened Sequences
  import opened Lookaside

  /** Stored less than two minutes from the time of the search, with the same database. */
  predicate Young(e: Entry, r: Reading) {
    -120 < e.timein - r.now < 120 && e.dbAge == r.dbAge
  }

  function AllYoung(es: seq<Entry>, r: Reading): seq<Entry> {
    if es == [] then [] else (if Young(es[0], r) then [es[0]] else []) + AllYoung(es[1..], r)
  }

  /** The first k entries do not answer the request, and the next one, if there is one, does. */
  predicate AnswersAt(es: seq<Entry>, request: string, addr: string, dbAge: int, k: nat) {
    && k <= |es|
    && (forall i :: 0 <= i < k ==> es[i].request != request || es[i].addr != addr || es[i].dbAge != dbAge)
    && (k < |es| ==> es[k].request == request && es[k].addr == addr && es[k].dbAge == dbAge)
  }

  /**
   A search answers from the first entry for the request; of the entries before that it leaves the
   young ones, and the entries after it as they are.
   */
  lemma {:induction false} SearchLeaves(es: seq<Entry>, request: string, addr: string, r: Reading, k: nat)
    requires AnswersAt(es, request, addr, r.dbAge, k)
    ensures Scan(es, request, addr, r) ==
            if k == |es| then (None, AllYoung(es, r))
            else (Some(es[k].reply), AllYoung(es[..k], r) + [es[k].(hits := es[k].hits + 1)] + es[k + 1..])
    decreases |es|
  {
    if k == 0 {
      if es != [] {
        var hit := [es[0].(hits := es[0].hits + 1)];
        assert AllYoung(es[..0], r) + hit == hit;
      }
    } else {
      SearchLeaves(es[1..], request, addr, r, k - 1);
      if k < |es| {
        var first, later := if Young(es[0], r) then [es[0]] else [], AllYoung(es[1..][..k - 1], r);
        var hit := [es[k].(hits := es[k].hits + 1)];
        assert es[..k][1..] == es[1..][..k - 1] && es[1..][k..] == es[k + 1..];
        Regroup(first, later + hit, es[k + 1..]);
        Regroup(first, later, hit);
      }
    }
  }

  lemma {:induction false} FirstAnswer(es: seq<Entry>, request: string, addr: string, dbAge: int) returns (k: nat)
    ensures AnswersAt(es, request, addr, dbAge, k)
  {
    if es == [] || (es[0].request == request && es[0].addr == addr && es[0].dbAge == dbAge) {
      k := 0;
    } else {
      k := FirstAnswer(es[1..], request, addr, dbAge);
      k := k + 1;
    }
  }

  /** The statistics: the most hits of any entry flushed so far. */
  lemma {:induction false} MostHits(es: seq<Entry>, request: string, addr: string, r: Reading, m: nat, k: nat)
    requires AnswersAt(es, request, addr, r.dbAge, k)
    ensures var most := MaxFlushed(es, request, addr, r, m);
            && m <= most
            && (forall i :: 0 <= i < k && !Young(es[i], r) ==> es[i].hits <= most)
            && (most == m || exists i :: 0 <= i < k && !Young(es[i], r) && es[i].hits == most)
    decreases |es|
  {
    if k > 0 {
      var m' := if !Young(es[0], r) && es[0].hits > m then es[0].hits else m;
      MostHits(es[1..], request, addr, r, m', k - 1);
      var most := MaxFlushed(es[1..], request, addr, r, m');
      forall i | 0 <= i < k && !Young(es[i], r) ensures es[i].hits <= most {
        if i > 0 { assert es[i] == es[1..][i - 1]; }
      }
      if most != m' {
        var i :| 0 <= i < k - 1 && !Young(es[1..][i], r) && es[1..][i].hits == most;
        assert es[i + 1] == es[1..][i];
      }
    }
  }

  // ----- One request -----

  /**
   After a request that the cache was searched for and that was processed, all that is left from
   before is the young entries, all of them and in their order.
   */
  lemma MissForgets(es: seq<Entry>, e: Event)
    requires e.check.Some? && Serve(es, e).1.Processed?
    ensures Serve(es, e).0 ==
            if e.answer.None? || e.insert.None? then AllYoung(es, e.check.value)
            else [Entry(e.request, e.addr, e.answer.value, e.insert.value.now, e.insert.value.dbAge, 0)]
                 + AllYoung(es, e.check.value)
  {
    var k := FirstAnswer(es, e.request, e.addr, e.check.value.dbAge);
    SearchLeaves(es, e.request, e.addr, e.check.value, k);
  }

  lemma {:induction false} YoungOnly(es: seq<Entry>, r: Reading, x: Entry)
    ensures x in AllYoung(es, r) <==> x in es && Young(x, r)
  {
    if es != [] {
      YoungOnly(es[1..], r, x);
      assert es == [es[0]] + es[1..];
    }
  }

  /** An entry stores the answer of this event. */
  predicate Stores(e: Event, x: Entry) {
    && e.request == x.request && e.addr == x.addr && e.answer == Some(x.reply)
    && e.insert == Some(Reading(x.timein, x.dbAge))
  }

  /** Each entry after a request is that request's answer, or was there before, with a hit less perhaps. */
  lemma ServeOrigin(es: seq<Entry>, e: Event, x: Entry) returns (old': Entry)
    requires x in Serve(es, e).0
    ensures !(Stores(e, x) && Serve(es, e).1.Processed?) ==>
              && old' in es && x == old'.(hits := x.hits)
              && (e.check.Some? && Serve(es, e).1.Processed? ==> Young(x, e.check.value))
  {
    old' := x;
    if e.check.Some? {
      var r := e.check.value;
      var k := FirstAnswer(es, e.request, e.addr, r.dbAge);
      SearchLeaves(es, e.request, e.addr, r, k);
      if k < |es| {
        YoungOnly(es[..k], r, x);
        if x !in es { old' := es[k]; }
      } else {
        YoungOnly(es, r, x);
      }
    }
  }

  // ----- Whole sequences -----

  /** Event i put entry x into the cache, and no search that missed since then, before k, was too far from it. */
  ghost predicate From(events: seq<Event>, i: nat, x: Entry, k: nat) {
    && i < k <= |events| && Stores(events[i], x) && OutcomeAt(events, i).Processed?
    && forall m :: i < m < k && events[m].check.Some? && OutcomeAt(events, m).Processed? ==>
                     Young(x, events[m].check.value)
  }

  lemma AfterNothing(events: seq<Event>)
    ensures After(events[..0]) == []
  {
    assert events[..0] == [];
  }

  lemma StillFrom(events: seq<Event>, i: nat, was: Entry, x: Entry, k: nat)
    requires From(events, i, was, k) && k < |events| && x == was.(hits := x.hits)
    requires events[k].check.Some? && OutcomeAt(events, k).Processed? ==> Young(x, events[k].check.value)
    ensures From(events, i, x, k + 1)
  {
    forall m | i < m < k + 1 && events[m].check.Some? && OutcomeAt(events, m).Processed?
      ensures Young(x, events[m].check.value)
    {
      if m < k { assert Young(was, events[m].check.value); }
    }
  }

  lemma {:induction false} Origin(events: seq<Event>, k: nat, x: Entry) returns (i: nat)
    requires 0 < k <= |events| && x in After(events[..k])
    ensures From(events, i, x, k)
    decreases k
  {
    var e, es := events[k - 1], After(events[..k - 1]);
    AfterStep(events, k - 1);
    AfterNothing(events);
    var was := ServeOrigin(es, e, x);
    assert OutcomeAt(events, k - 1) == Serve(es, e).1;
    if Stores(e, x) && OutcomeAt(events, k - 1).Processed? {
      i := k - 1;
    } else {
      i := Origin(events, k - 1, was);
      StillFrom(events, i, was, x, k - 1);
    }
  }

  /**
   An answer is sent again only if it was given to the same request from the same address before,
   with the database as it is, and every search since that found nothing took place less than two
   minutes from the time the answer was stored and with that database.
   */
  lemma ResentOnly(events: seq<Event>, j: nat) returns (i: nat)
    requires j < |events| && OutcomeAt(events, j).Resent?
    ensures i < j && OutcomeAt(events, i) == Processed(Some(OutcomeAt(events, j).reply))
    ensures events[i].request == events[j].request && events[i].addr == events[j].addr
    ensures events[j].check.Some? && events[i].insert.Some?
            && events[i].insert.value.dbAge == events[j].check.value.dbAge
    ensures forall m :: i < m < j && events[m].check.Some? && OutcomeAt(events, m).Processed? ==>
              && -120 < events[i].insert.value.now - events[m].check.value.now < 120
              && events[m].check.value.dbAge == events[i].insert.value.dbAge
  {
    var es, e := After(events[..j]), events[j];
    var k := FirstAnswer(es, e.request, e.addr, e.check.value.dbAge);
    SearchLeaves(es, e.request, e.addr, e.check.value, k);
    AfterNothing(events);
    i := Origin(events, j, es[k]);
    ProcessedAnswer(events, i);
  }

  lemma ProcessedAnswer(events: seq<Event>, i: nat)
    requires i < |events| && OutcomeAt(events, i).Processed?
    ensures OutcomeAt(events, i) == Processed(events[i].answer)
  {
  }

  /**
   A packet is processed again if, since each time its answer was stored, some search that found
   nothing took place two minutes or more from that time, or with another database.
   */
  lemma OldIsProcessed(events: seq<Event>, j: nat)
    requires j < |events|
    requires forall i :: 0 <= i < j && events[i].request == events[j].request && events[i].addr == events[j].addr
                         && events[i].insert.Some? && OutcomeAt(events, i).Processed? ==>
               exists m :: i < m < j && events[m].check.Some? && OutcomeAt(events, m).Processed?
                           && (|| events[m].check.value.now - events[i].insert.value.now >= 120
                               || events[i].insert.value.now - events[m].check.value.now >= 120
                               || events[m].check.value.dbAge != events[i].insert.value.dbAge)
    ensures OutcomeAt(events, j) == Processed(events[j].answer)
  {
    if OutcomeAt(events, j).Resent? {
      var i := ResentOnly(events, j);
      assert false;
    }
    ProcessedAnswer(events, j);
  }

  /** Packet A is answered at time 0 and B at 500; when A comes again at 600 it is processed again. */
  lemma ForgottenAfterMiss(a1: string, a2: string, b: string)
    ensures var t := (now: int) => Some(Reading(now, 7));
            var events := [Event("A", "host", t(0), Some(a1), t(0)), Event("B", "host", t(500), Some(b), t(500)),
                           Event("A", "host", t(600), Some(a2), t(600))];
            OutcomeAt(events, 2) == Processed(Some(a2))
  {
    var t := (now: int) => Some(Reading(now, 7));
    var events := [Event("A", "host", t(0), Some(a1), t(0)), Event("B", "host", t(500), Some(b), t(500)),
                   Event("A", "host", t(600), Some(a2), t(600))];
    if OutcomeAt(events, 1).Resent? {
      var _ := ResentOnly(events, 1);
    }
    if OutcomeAt(events, 2).Resent? {
      var _ := ResentOnly(events, 2);
    }
    ProcessedAnswer(events, 2);
  }
}
