/**
 The KDC's lookaside cache (replay.c) and the way `dispatch` uses it: a request that was
 answered lately, from the same address, gets the same answer again without being processed.
 */
module Lookaside {
  import opened Options

  /** A reading of the clock and of the age of the database; both can fail to be read. */
  datatype Reading = Reading(now: int, dbAge: int)

  datatype Entry = Entry(request: string, addr: string, reply: string, timein: int, dbAge: int, hits: nat)

  const STALE_TIME: int := 120

  function Abs(x: int): int {
    if x < 0 then -x else x
  }

  predicate Stale(e: Entry, r: Reading) {
    Abs(e.timein - r.now) >= STALE_TIME || e.dbAge != r.dbAge
  }

  predicate Matches(e: Entry, request: string, addr: string, dbAge: int) {
    e.request == request && e.addr == addr && e.dbAge == dbAge
  }

  // ----- The scan -----

  /** Looks for the request; stale entries met on the way are flushed, a match ends the scan. */
  function Scan(es: seq<Entry>, request: string, addr: string, r: Reading): (Option<string>, seq<Entry>) {
    if es == [] then (None, [])
    else if Matches(es[0], request, addr, r.dbAge) then
      (Some(es[0].reply), [es[0].(hits := es[0].hits + 1)] + es[1..])
    else
      var rest := Scan(es[1..], request, addr, r);
      (rest.0, (if Stale(es[0], r) then [] else [es[0]]) + rest.1)
  }

  /** The largest number of hits among the entries flushed so far and those this scan flushes. */
  function MaxFlushed(es: seq<Entry>, request: string, addr: string, r: Reading, m: nat): nat {
    if es == [] || Matches(es[0], request, addr, r.dbAge) then m
    else MaxFlushed(es[1..], request, addr, r, if Stale(es[0], r) && es[0].hits > m then es[0].hits else m)
  }

  /** The scan has passed over `done`, which stays, and has `ahead` still before it. */
  ghost predicate Scanning(goal: (Option<string>, seq<Entry>), done: seq<Entry>, ahead: seq<Entry>,
                           request: string, addr: string, r: Reading)
  {
    goal == (Scan(ahead, request, addr, r).0, done + Scan(ahead, request, addr, r).1)
  }

  /** A match ends the scan; a stale entry is taken out; any other entry is passed over. */
  lemma ScanStep(goal: (Option<string>, seq<Entry>), done: seq<Entry>, ahead: seq<Entry>,
                 request: string, addr: string, r: Reading)
    requires ahead != [] && Scanning(goal, done, ahead, request, addr, r)
    ensures var e, rest := ahead[0], ahead[1..];
            if Matches(e, request, addr, r.dbAge) then
              goal == (Some(e.reply), done + ([e.(hits := e.hits + 1)] + rest))
            else if Stale(e, r) then Scanning(goal, done, rest, request, addr, r)
            else Scanning(goal, done + [e], rest, request, addr, r)
  {
    var e, rest := ahead[0], Scan(ahead[1..], request, addr, r).1;
    assert [] + rest == rest && done + ([e] + rest) == done + [e] + rest;
  }

  lemma ScanEnds(goal: (Option<string>, seq<Entry>), done: seq<Entry>, request: string, addr: string, r: Reading)
    requires Scanning(goal, done, [], request, addr, r)
    ensures goal == (None, done)
  {
    assert done + [] == done;
  }

  // ----- The list -----

  class Node {
    var entry: Entry
    var next: Node?

    constructor (entry: Entry, next: Node?)
      ensures this.entry == entry && this.next == next
    {
      this.entry, this.next := entry, next;
    }
  }

  /** From n on the list consists of these nodes, all different. */
  ghost predicate List(n: Node?, nodes: seq<Node>)
    reads nodes`next
  {
    if nodes == [] then n == null
    else n == nodes[0] && nodes[0] !in nodes[1..] && List(nodes[0].next, nodes[1..])
  }

  /** These nodes follow one another; where the last one leads is left open. */
  ghost predicate Segment(nodes: seq<Node>)
    requires nodes != []
    reads nodes[..|nodes| - 1]`next
  {
    |nodes| == 1 ||
    (&& nodes[0] !in nodes[1..] && nodes[0].next == nodes[1]
     && (assert nodes[1..][..|nodes| - 2] == nodes[1..|nodes| - 1]; Segment(nodes[1..])))
  }

  ghost function Values(nodes: seq<Node>): (es: seq<Entry>)
    reads nodes`entry
    ensures |es| == |nodes|
  {
    if nodes == [] then [] else [nodes[0].entry] + Values(nodes[1..])
  }

  lemma {:induction false} ValuesJoined(a: seq<Node>, b: seq<Node>)
    ensures Values(a + b) == Values(a) + Values(b)
    decreases |a|
  {
    if a == [] {
      assert a + b == b;
    } else {
      ValuesJoined(a[1..], b);
      assert (a + b)[1..] == a[1..] + b;
    }
  }

  ghost function LastOf(nodes: seq<Node>): Node
    requires nodes != []
  {
    nodes[|nodes| - 1]
  }

  lemma {:induction false} LastIsNew(nodes: seq<Node>)
    requires nodes != [] && Segment(nodes)
    ensures LastOf(nodes) !in nodes[..|nodes| - 1]
    decreases |nodes|
  {
    if |nodes| > 1 {
      LastIsNew(nodes[1..]);
      assert nodes[..|nodes| - 1] == [nodes[0]] + nodes[1..][..|nodes| - 2];
      assert LastOf(nodes) == LastOf(nodes[1..]) && LastOf(nodes) in nodes[1..];
    }
  }

  lemma {:induction false} SegmentGrows(nodes: seq<Node>, n: Node)
    requires nodes != [] && Segment(nodes) && LastOf(nodes).next == n && n !in nodes
    ensures Segment(nodes + [n])
    decreases |nodes|
  {
    if |nodes| > 1 {
      SegmentGrows(nodes[1..], n);
      assert (nodes + [n])[1..] == nodes[1..] + [n];
    } else {
      assert (nodes + [n])[1..] == [n];
    }
  }

  /** A segment and the list it leads to are one list. */
  lemma {:induction false} Joined(front: seq<Node>, back: seq<Node>)
    requires front != [] && Segment(front) && List(LastOf(front).next, back)
    requires forall n :: n in front ==> n !in back
    ensures List(front[0], front + back)
    decreases |front|
  {
    assert (front + back)[1..] == front[1..] + back;
    if |front| > 1 {
      Joined(front[1..], back);
    } else {
      assert front[1..] + back == back;
    }
  }

  class Cache {
    const root: Node   // its entry is not used
    var hits: nat
    var calls: nat
    var maxHitsPerEntry: nat
    var numEntries: nat
    ghost var chain: seq<Node>   // the list, from the root on

    ghost predicate Valid()
      reads this, chain`next
    {
      chain != [] && List(root, chain)
    }

    ghost function Entries(): seq<Entry>
      requires chain != []
      reads this, chain`entry
    {
      Values(chain[1..])
    }

    constructor ()
      ensures Valid() && fresh(chain) && Entries() == []
    {
      root := new Node(Entry("", "", "", 0, 0, 0), null);
      hits, calls, maxHitsPerEntry, numEntries := 0, 0, 0, 0;
      new;
      chain := [root];
    }

    /** The scan has kept the nodes in `front` and has those in `back` before it. */
    ghost predicate At(front: seq<Node>, back: seq<Node>)
      reads this, front`next
      reads back`next
    {
      && front != [] && front[0] == root && Segment(front) && List(LastOf(front).next, back)
      && (forall n :: n in front ==> n !in back)
    }

    /** Takes the first of the nodes ahead off the list: the one before it gets its next. */
    method Unlink(last: Node, eptr: Node, ghost front: seq<Node>, ghost back: seq<Node>)
      requires At(front, back) && back != [] && last == LastOf(front) && eptr == back[0]
      modifies last`next
      ensures At(front, back[1..])
    {
      LastIsNew(front);
      ghost var rest := back[1..];
      assert List(eptr.next, rest) && last in front;
      assert forall n :: n in rest ==> n in back;
      last.next := eptr.next;
      assert List(eptr.next, rest);
    }

    /** The entries kept so far, and those still ahead. */
    ghost predicate Standing(front: seq<Node>, back: seq<Node>, done: seq<Entry>, ahead: seq<Entry>)
      reads this, front, back
    {
      At(front, back) && Values(front[1..]) == done && Values(back) == ahead
    }

    /** A node that does not match is unlinked if it is stale, else passed over. */
    method Advance(last: Node, eptr: Node, r: Reading,
                   ghost front: seq<Node>, ghost back: seq<Node>, ghost done: seq<Entry>, ghost ahead: seq<Entry>)
      returns (last': Node, eptr': Node?, ghost front': seq<Node>, ghost done': seq<Entry>)
      requires Standing(front, back, done, ahead) && back != [] && last == LastOf(front) && eptr == back[0]
      modifies this`maxHitsPerEntry, last`next
      ensures Standing(front', back[1..], done', ahead[1..]) && last' == LastOf(front') && eptr' == last'.next
      ensures var e := ahead[0];
              if Stale(e, r) then
                && front' == front && done' == done
                && maxHitsPerEntry == if e.hits > old(maxHitsPerEntry) then e.hits else old(maxHitsPerEntry)
              else front' == front + [eptr] && done' == done + [e] && maxHitsPerEntry == old(maxHitsPerEntry)
    {
      last', eptr', front', done' := last, eptr, front, done;
      if Stale(eptr.entry, r) {
        maxHitsPerEntry := if maxHitsPerEntry > eptr.entry.hits then maxHitsPerEntry else eptr.entry.hits;
        Unlink(last, eptr, front, back);
        eptr' := last;
      } else {
        SegmentGrows(front, eptr);
        ValuesJoined(front[1..], [eptr]);
        assert (front + [eptr])[1..] == front[1..] + [eptr];
        last', front', done' := eptr, front + [eptr], done + [eptr.entry];
      }
      eptr' := eptr'.next;
    }

    /** The node that matches counts a hit, and the scan ends. */
    method Hit(eptr: Node, ghost front: seq<Node>, ghost back: seq<Node>,
               ghost done: seq<Entry>, ghost ahead: seq<Entry>)
      requires Standing(front, back, done, ahead) && back != [] && eptr == back[0]
      modifies eptr`entry, this`chain
      ensures chain == front + back && Valid()
      ensures var e := ahead[0]; Entries() == done + ([e.(hits := e.hits + 1)] + ahead[1..])
    {
      Joined(front, back);
      assert eptr in back && eptr !in front[1..] && eptr !in back[1..];
      eptr.entry := eptr.entry.(hits := eptr.entry.hits + 1);
      chain := front + back;
      ValuesJoined(front[1..], back);
      assert chain[1..] == front[1..] + back;
    }

    /** Nothing is ahead: what was kept is the list. */
    ghost method Stop(front: seq<Node>, done: seq<Entry>)
      requires Standing(front, [], done, [])
      modifies this`chain
      ensures chain == front && Valid() && Entries() == done
    {
      Joined(front, []);
      assert front + [] == front;
      chain := front;
    }

    /** Everything is ahead. */
    lemma Begin()
      requires Valid()
      ensures Standing([root], chain[1..], [], Entries())
    {
      assert [root][1..] == [];
    }

    /** The loop of kdc_check_lookaside. */
    method Search(request: string, addr: string, r: Reading) returns (reply: Option<string>)
      requires Valid()
      modifies this`chain, this`hits, this`maxHitsPerEntry, chain
      ensures Valid() && forall n :: n in chain ==> n in old(chain)
      ensures (reply, Entries()) == Scan(old(Entries()), request, addr, r)
      ensures hits == old(hits) + (if reply.Some? then 1 else 0)
      ensures maxHitsPerEntry == MaxFlushed(old(Entries()), request, addr, r, old(maxHitsPerEntry))
    {
      var last: Node, eptr: Node? := root, root.next;
      ghost var front, back := [root], chain[1..];
      ghost var done: seq<Entry>, ahead := [], Entries();
      ghost var goal := Scan(ahead, request, addr, r);
      ghost var most := MaxFlushed(ahead, request, addr, r, maxHitsPerEntry);
      Begin();
      assert [] + goal.1 == goal.1;
      while eptr != null
        invariant Standing(front, back, done, ahead) && last == LastOf(front) && eptr == last.next
        invariant forall n :: n in front || n in back ==> n in old(chain)
        invariant Scanning(goal, done, ahead, request, addr, r)
        invariant MaxFlushed(ahead, request, addr, r, maxHitsPerEntry) == most
        invariant hits == old(hits)
        decreases |back|
      {
        assert eptr in back && last in front;
        ScanStep(goal, done, ahead, request, addr, r);
        if Matches(eptr.entry, request, addr, r.dbAge) {
          reply := Some(eptr.entry.reply);
          Hit(eptr, front, back, done, ahead);
          hits := hits + 1;
          return;
        }
        last, eptr, front, done := Advance(last, eptr, r, front, back, done, ahead);
        back, ahead := back[1..], ahead[1..];
      }
      Stop(front, done);
      ScanEnds(goal, done, request, addr, r);
      return None;
    }

    /** kdc_check_lookaside. */
    method Check(request: string, addr: string, reading: Option<Reading>) returns (reply: Option<string>)
      requires Valid()
      modifies this, chain
      ensures Valid() && forall n :: n in chain ==> n in old(chain)
      ensures reading.None? ==> reply.None? && Entries() == old(Entries())
      ensures reading.Some? ==> (reply, Entries()) == Scan(old(Entries()), request, addr, reading.value)
      ensures numEntries == old(numEntries)
      ensures calls == old(calls) + (if reading.Some? then 1 else 0)
      ensures hits == old(hits) + (if reply.Some? then 1 else 0)
      ensures maxHitsPerEntry == if reading.None? then old(maxHitsPerEntry)
                                 else MaxFlushed(old(Entries()), request, addr, reading.value, old(maxHitsPerEntry))
    {
      if reading.None? { return None; }
      calls := calls + 1;
      reply := Search(request, addr, reading.value);
    }

    /** kdc_insert_lookaside. */
    method Insert(request: string, addr: string, reply: string, reading: Option<Reading>)
      requires Valid()
      modifies this, root
      ensures Valid() && forall n :: n in chain ==> n in old(chain) || fresh(n)
      ensures Entries() == Inserted(old(Entries()), request, addr, reply, reading)
      ensures numEntries == old(numEntries) + (if reading.Some? then 1 else 0)
      ensures hits == old(hits) && calls == old(calls) && maxHitsPerEntry == old(maxHitsPerEntry)
    {
      if reading.None? { return; }
      ghost var rest := chain[1..];
      var eptr := new Node(Entry(request, addr, reply, reading.value.now, reading.value.dbAge, 0), root.next);
      root.next := eptr;
      assert ([eptr] + rest)[1..] == rest;
      chain := [root] + ([eptr] + rest);
      assert chain[1..] == [eptr] + rest;
      numEntries := numEntries + 1;
    }

    /** dispatch: `answer` is what processing the request would give, None if it fails. */
    method Dispatch(e: Event) returns (outcome: Outcome)
      requires Valid()
      modifies this, chain
      ensures Valid() && forall n :: n in chain ==> n in old(chain) || fresh(n)
      ensures (Entries(), outcome) == Serve(old(Entries()), e)
      ensures hits == old(hits) + (if outcome.Resent? then 1 else 0)
    {
      var reply := Check(e.request, e.addr, e.check);
      if reply.Some? { return Resent(reply.value); }
      assert root == chain[0];
      if e.answer.Some? { Insert(e.request, e.addr, e.answer.value, e.insert); }
      return Processed(e.answer);
    }
  }

  function Inserted(es: seq<Entry>, request: string, addr: string, reply: string,
                    reading: Option<Reading>): seq<Entry> {
    if reading.None? then es
    else [Entry(request, addr, reply, reading.value.now, reading.value.dbAge, 0)] + es
  }

  // ----- Sequences of requests -----

  /**
   A packet that comes in, with the readings taken when the cache is searched and when an
   answer is put into it, and the answer its processing would give.
   */
  datatype Event = Event(
    request: string, addr: string, check: Option<Reading>, answer: Option<string>, insert: Option<Reading>)

  datatype Outcome = Resent(reply: string) | Processed(answer: Option<string>)

  function Serve(es: seq<Entry>, e: Event): (seq<Entry>, Outcome) {
    var found := if e.check.None? then (None, es) else Scan(es, e.request, e.addr, e.check.value);
    if found.0.Some? then (found.1, Resent(found.0.value))
    else if e.answer.None? then (found.1, Processed(None))
    else (Inserted(found.1, e.request, e.addr, e.answer.value, e.insert), Processed(e.answer))
  }

  /** The cache after a sequence of requests. */
  function After(events: seq<Event>): seq<Entry> {
    if events == [] then [] else Serve(After(events[..|events| - 1]), events[|events| - 1]).0
  }

  function OutcomeAt(events: seq<Event>, j: nat): Outcome
    requires j < |events|
  {
    Serve(After(events[..j]), events[j]).1
  }

  // ----- What the scan keeps -----

  /** The entries that are not stale, without their statistics. */
  function Live(es: seq<Entry>, r: Reading): seq<Entry> {
    if es == [] then []
    else (if Stale(es[0], r) then [] else [es[0].(hits := 0)]) + Live(es[1..], r)
  }

  /** Entries that are not stale are never removed, changed or reordered; on a miss nothing else is left. */
  lemma {:induction false} ScanKeepsLive(es: seq<Entry>, request: string, addr: string, r: Reading)
    ensures Live(Scan(es, request, addr, r).1, r) == Live(es, r)
    ensures Scan(es, request, addr, r).0.None? ==> |Scan(es, request, addr, r).1| == |Live(es, r)|
  {
    if es != [] {
      var after := Scan(es, request, addr, r).1;
      if Matches(es[0], request, addr, r.dbAge) {
        assert after[1..] == es[1..];
      } else {
        ScanKeepsLive(es[1..], request, addr, r);
        if Stale(es[0], r) {
          assert after == Scan(es[1..], request, addr, r).1;
        } else {
          assert after[1..] == Scan(es[1..], request, addr, r).1;
        }
      }
    }
  }

  /** The entry a request would be answered from, if the database has the given age. */
  function Lookup(es: seq<Entry>, request: string, addr: string, dbAge: int): Option<(string, int)> {
    if es == [] then None
    else if Matches(es[0], request, addr, dbAge) then Some((es[0].reply, es[0].timein))
    else Lookup(es[1..], request, addr, dbAge)
  }

  /** A scan answers from the first entry that matches, stale or not. */
  lemma {:induction false} ScanFinds(es: seq<Entry>, request: string, addr: string, r: Reading)
    ensures var found := Lookup(es, request, addr, r.dbAge);
            Scan(es, request, addr, r).0 == if found.None? then None else Some(found.value.0)
  {
    if es != [] { ScanFinds(es[1..], request, addr, r); }
  }

  /** A scan for any request leaves an entry that is not stale where it is found. */
  lemma {:induction false} ScanKeepsLookup(es: seq<Entry>, q: string, a: string,
                                           r: Reading, request: string, addr: string)
    requires Lookup(es, request, addr, r.dbAge).Some?
    requires -120 < Lookup(es, request, addr, r.dbAge).value.1 - r.now < 120
    ensures Lookup(Scan(es, q, a, r).1, request, addr, r.dbAge) == Lookup(es, request, addr, r.dbAge)
  {
    var after := Scan(es, q, a, r).1;
    if Matches(es[0], q, a, r.dbAge) {
      assert after[1..] == es[1..];
    } else if Matches(es[0], request, addr, r.dbAge) {
      assert after[0] == es[0];
    } else {
      ScanKeepsLookup(es[1..], q, a, r, request, addr);
      if Stale(es[0], r) {
        assert after == Scan(es[1..], q, a, r).1;
      } else {
        assert after[1..] == Scan(es[1..], q, a, r).1;
      }
    }
  }

  // ----- Whole sequences -----

  /** The answer given at step i is still the one that would be found before step k. */
  predicate Remembered(events: seq<Event>, i: nat, k: nat)
    requires i < |events| && k <= |events| && events[i].answer.Some? && events[i].insert.Some?
  {
    var e := events[i];
    Lookup(After(events[..k]), e.request, e.addr, e.insert.value.dbAge) == Some((e.answer.value, e.insert.value.now))
  }

  lemma AfterStep(events: seq<Event>, k: nat)
    requires k < |events|
    ensures After(events[..k + 1]) == Serve(After(events[..k]), events[k]).0
  {
    assert events[..k + 1][..k] == events[..k];
  }

  /** Until the entry is stale for some request, it stays. */
  lemma {:induction false} StaysRemembered(events: seq<Event>, i: nat, k: nat)
    requires i < k <= |events| && events[i].answer.Some? && events[i].insert.Some?
    requires OutcomeAt(events, i).Processed?
    requires forall m :: i < m < k ==> Recent(events[i], events[m])
    ensures Remembered(events, i, k)
  {
    var e := events[i];
    AfterStep(events, k - 1);
    var es := After(events[..k - 1]);
    if k - 1 == i {
      var found := if e.check.None? then es else Scan(es, e.request, e.addr, e.check.value).1;
      assert After(events[..k])[0] ==
             Entry(e.request, e.addr, e.answer.value, e.insert.value.now, e.insert.value.dbAge, 0);
    } else {
      StaysRemembered(events, i, k - 1);
      var f := events[k - 1];
      assert Recent(e, f);
      var now := After(events[..k]);
      if f.check.None? {
        if f.answer.Some? && f.insert.Some? { assert now[1..] == es; }
      } else {
        ScanKeepsLookup(es, f.request, f.addr, f.check.value, e.request, e.addr);
        ScanFinds(es, f.request, f.addr, f.check.value);
        var found := Scan(es, f.request, f.addr, f.check.value);
        if found.0.None? && f.answer.Some? && f.insert.Some? {
          assert now[1..] == found.1;
        }
      }
    }
  }

  /**
   The cache is searched for f less than two minutes from the time e's answer was stored, with
   the database unchanged; or it is not searched, the clock having failed, and f is another packet.
   */
  predicate Recent(e: Event, f: Event)
    requires e.insert.Some?
  {
    if f.check.None? then f.request != e.request || f.addr != e.addr
    else f.check.value.dbAge == e.insert.value.dbAge && -120 < e.insert.value.now - f.check.value.now < 120
  }

  /**
   A request that was processed and answered is, when it comes again from the same address,
   never processed again: it gets the first answer, byte for byte, as long as every search in
   between took place less than two minutes from the time the answer was stored and the
   database has not changed. Other packets may come in between without a search.
   */
  lemma SameAnswer(events: seq<Event>, i: nat, j: nat)
    requires i < j < |events| && events[i].answer.Some? && events[i].insert.Some?
    requires OutcomeAt(events, i).Processed?
    requires events[j].request == events[i].request && events[j].addr == events[i].addr
    requires events[j].check.Some? && events[j].check.value.dbAge == events[i].insert.value.dbAge
    requires forall m :: i < m < j ==> Recent(events[i], events[m])
    ensures OutcomeAt(events, j) == Resent(events[i].answer.value)
  {
    StaysRemembered(events, i, j);
    ScanFinds(After(events[..j]), events[j].request, events[j].addr, events[j].check.value);
  }
}
