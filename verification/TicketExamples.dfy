/**
 Chains in which something else happens than one would expect, step by step. One realm, no
 attributes, and a client with a ticket for the ticket granting server.
 */
module TicketExamples {
  import opened Options
  import opened Kdc
  import opened Tickets
  import opened TicketChains

  const ATHENA := Realm("ATHENA", 100, 1000)
  const TGS := Principal("ATHENA", [KRBTGT, "ATHENA"])
  const ALICE := Principal("ATHENA", ["alice"])
  const PLAIN := DbEntry({}, 100, 1000, 0, 0)

  function Asking(options: set<KdcOpt>, from: nat, till: nat): Request {
    Request(options, ALICE, TGS, from, till, 0, [], None, None, None, ALICE)
  }

  /** A ticket for the ticket granting server, issued at time 10. */
  function First(options: set<KdcOpt>, from: nat): Chain {
    Root(ATHENA, Asking(options, from, 50), PLAIN, PLAIN, 10)
  }

  function Then(c: Chain, options: set<KdcOpt>, from: nat, now: nat): Chain {
    Hop(c, ATHENA, Asking(options, from, 50), PLAIN, now)
  }

  /** Renewing a renewable ticket, without asking for a renewable one again. */
  lemma RenewLosesLimit()
    ensures var c := Then(First({OptRenewable}, 0), {OptRenew}, 0, 20);
            c.Valid() && Renewable in c.Last().flags
            && c.header.Last().times.renewTill == 1010 && c.Last().times.renewTill == 0
  {
    assert First({OptRenewable}, 0).Last().times == Times(10, 0, 50, 1010);
  }

  /** Validating a postdated and renewable ticket. */
  lemma ValidateLosesLimit()
    ensures var c := Then(First({OptRenewable, OptPostdated}, 20), {OptValidate}, 0, 30);
            c.Valid() && Renewable in c.Last().flags
            && c.header.Last().times.renewTill == 1020 && c.Last().times.renewTill == 0
  {
  }

  /** A postdated ticket asked for at time 20, to start at 40, starts at 20. */
  lemma PostdatedStartsNow()
    ensures var c := Then(First({OptAllowPostdate}, 0), {OptPostdated}, 40, 20);
            c.Valid() && Invalid in c.Last().flags && EffectiveStart(c.Last().times) == 20
  {
    assert First({OptAllowPostdate}, 0).Last().times == Times(10, 0, 50, 0);
  }

  /** A proxy of a ticket granting ticket is issued; one for any other server is refused. */
  lemma ProxyOfTgt()
    ensures var c := Then(First({OptProxiable}, 0), {OptProxy}, 0, 20); c.Valid() && Proxy in c.Last().flags
  {
  }

  /** A renewable ticket for a server whose entry forbids it: the client asked for more life than there is. */
  lemma RenewableInstead()
    ensures var c := Root(ATHENA, Asking({OptRenewableOk}, 0, 500), PLAIN,
                          PLAIN.(attributes := {DisallowRenewable}), 10);
            c.Valid() && Renewable in c.Last().flags
  {
  }

  /** A postdated ticket for a server whose entry forbids it. */
  lemma PostdatedAnyway()
    ensures var server := PLAIN.(attributes := {DisallowPostdated});
            var c := Hop(First({OptAllowPostdate}, 0), ATHENA, Asking({OptPostdated}, 40, 50), server, 20);
            c.Valid() && Postdated in c.Last().flags
  {
    assert First({OptAllowPostdate}, 0).Last().times == Times(10, 0, 50, 0);
  }

  /** The end is the least of the time asked for, 30, the server's limit, 25, the realm's, 120, and the header's, 50. */
  lemma EndIsLeast()
    ensures var c := Hop(First({}, 0), ATHENA, Asking({}, 0, 30), PLAIN.(maxLife := 5), 20);
            c.Valid() && c.Last().times.endtime == 25
  {
  }

  /** A client is served until its entry expires, and not after. */
  lemma ExpiredClient()
    ensures Root(ATHENA, Asking({}, 0, 50), PLAIN.(expiration := 500), PLAIN, 10).Valid()
    ensures !Root(ATHENA, Asking({}, 0, 50), PLAIN.(expiration := 5), PLAIN, 10).Valid()
  {
  }
}
