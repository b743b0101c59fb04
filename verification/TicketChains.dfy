/**
 What every chain of tickets keeps: an AS ticket, and TGS tickets each derived from the
 one before, by any KDCs under one clock that does not run backwards.
 */
module TicketChains {
  import opened Options
  import opened Transited
  import opened TransitedMeaning
  import opened Kdc
  import opened Tickets

  /** How a ticket came about: an AS exchange, or a TGS exchange on a header ticket. */
  datatype Chain =
    | Root(realm: Realm, req: Request, client: DbEntry, server: DbEntry, now: nat)
    | Hop(header: Chain, realm: Realm, req: Request, server: DbEntry, now: nat)
  {
    /** The ticket at the end of the chain; see `ProcessAsReq` and `ProcessTgsReq`. */
    function Last(): Ticket {
      match this
      case Root(realm, req, client, server, now) => AsTicket(realm, req, client, server, now)
      case Hop(header, realm, req, server, now) => TgsTicket(realm, req, server, header.Last(), now)
    }

    /** The requests that `ProcessAsReq` and `ProcessTgsReq` answer with a ticket, at times that do not decrease. */
    predicate Valid() {
      match this
      case Root(realm, req, client, server, now) =>
        AsEligible(req, client, server, now) && AsAuthentic(req, client)
      case Hop(header, realm, req, server, now) =>
        && header.Valid()
        && header.now <= now
        && TgsAdmissible(realm, req, server, header.Last(), now)
    }

    function First(): Chain {
      if Root? then this else header.First()
    }
  }

  /** d is c or is derived from c. */
  predicate Extends(d: Chain, c: Chain) {
    d == c || (d.Hop? && Extends(d.header, c))
  }

  /** The request of this step deserved a ticket, and the ticket is the one it deserved. */
  ghost predicate Deserved(c: Chain) {
    match c
    case Root(realm, req, client, server, now) =>
      && AsEligible(req, client, server, now) && AsAuthentic(req, client)
      && AsGranted(realm, req, client, server, now, c.Last())
    case Hop(header, realm, req, server, now) =>
      && TgsAdmissible(realm, req, server, header.Last(), now)
      && TgsGranted(realm, req, server, header.Last(), now, c.Last())
  }

  /** At every step on the way to a ticket, the request deserved exactly the ticket it got. */
  lemma {:induction false} ChainDeserved(c: Chain, d: Chain)
    requires d.Valid() && Extends(d, c)
    ensures Deserved(c)
  {
    if d != c {
      ChainDeserved(c, d.header);
    } else {
      match c
      case Root(realm, req, client, server, now) => AsTicketGranted(realm, req, client, server, now);
      case Hop(header, realm, req, server, now) => TgsTicketGranted(realm, req, server, header.Last(), now);
    }
  }

  /** No step after c, up to d, renews. */
  predicate Unrenewed(d: Chain, c: Chain) {
    d == c || (d.Hop? && OptRenew !in d.req.options && Unrenewed(d.header, c))
  }

  /** Without renewal, no ticket outlasts what any request before it asked for, nor what its server or realm allows. */
  lemma {:induction false} ChainEnds(c: Chain, d: Chain)
    requires d.Valid() && Unrenewed(d, c) && (c.Hop? ==> OptRenew !in c.req.options)
    ensures d.Last().times.endtime <= c.Last().times.endtime
    ensures c.req.till != 0 ==> d.Last().times.endtime <= c.req.till
    ensures var start := if c.Root? && OptPostdated in c.req.options then c.req.from else c.now;
            d.Last().times.endtime <= start + c.server.maxLife && d.Last().times.endtime <= start + c.realm.maxLife
  {
    ChainDeserved(d, d);
    if d != c { ChainEnds(c, d.header); }
  }

  // ----- Times -----

  /** A ticket is waiting for validation or has reached its start time. */
  predicate Started(t: Ticket, now: nat) {
    Invalid in t.flags || EffectiveStart(t.times) <= now
  }

  /** What an admitted request's times are bound by: the header ticket's own. */
  lemma TgsTimesBound(realm: Realm, req: Request, server: DbEntry, header: Ticket, now: nat)
    requires TgsAdmissible(realm, req, server, header, now)
    requires Started(header, now) && header.times.authtime <= now
    ensures var h, t := header.times, TgsTimes(realm, req, server, header, now);
            && EffectiveStart(h) <= now == EffectiveStart(t)
            && EffectiveLife(t) <= EffectiveLife(h)
            && t.renewTill <= h.renewTill
            && t.endtime <= (if OptRenew in req.options then h.renewTill else h.endtime)
            && t.authtime == h.authtime
  {
  }

  /** One step never gives more life than the header ticket had, nor a later limit. */
  lemma HopTimes(c: Chain)
    requires c.Hop? && c.Valid()
    requires Started(c.header.Last(), c.header.now) && c.header.Last().times.authtime <= c.now
    ensures var h, t := c.header.Last().times, c.Last().times;
            && EffectiveStart(h) <= c.now == EffectiveStart(t)
            && EffectiveLife(t) <= EffectiveLife(h)
            && t.renewTill <= h.renewTill
            && t.endtime <= (if OptRenew in c.req.options then h.renewTill else h.endtime)
            && t.authtime == h.authtime
  {
    TgsTimesBound(c.realm, c.req, c.server, c.header.Last(), c.now);
  }

  /**
   Along every chain the effective life never grows and the renewal limit never moves up; no
   ticket outlives the root's end and renewal limit; the authentication time is the root's;
   and nothing is derived before the root's start time.
   */
  lemma {:induction false} ChainTimes(c: Chain)
    requires c.Valid()
    ensures c.First().Root? && c.First().Valid()
    ensures var t, r := c.Last().times, c.First().Last().times;
            && EffectiveLife(t) <= EffectiveLife(r)
            && t.renewTill <= r.renewTill
            && (t.endtime <= r.endtime || t.endtime <= r.renewTill)
            && t.authtime == r.authtime == c.First().now <= c.now
            && Started(c.Last(), c.now)
            && (c.Hop? ==> EffectiveStart(r) <= c.now)
  {
    if c.Hop? {
      ChainTimes(c.header);
      HopTimes(c);
    }
  }

  /** The root's life, and so every ticket's, is within the maxima of client, server and realm. */
  lemma ChainLifeCapped(c: Chain)
    requires c.Valid()
    ensures var r := c.First();
            r.Root? && EffectiveLife(c.Last().times) <= Min(r.client.maxLife, Min(r.server.maxLife, r.realm.maxLife))
  {
    ChainTimes(c);
  }

  /** No ticket at all comes out of a postdated root before the requested start. */
  lemma PostdatedWaits(c: Chain)
    requires c.Valid() && c.Hop?
    ensures OptPostdated in c.First().req.options ==> c.First().req.from <= c.now
  {
    ChainTimes(c);
  }

  // ----- Flags -----

  const GRANTED: set<TktFlag> := {Forwardable, Proxiable, MayPostdate, Renewable}
  const AUTHENTICATED: set<TktFlag> := {PreAuth, HwAuth}

  lemma TgsFlagGranted(realm: Realm, req: Request, server: DbEntry, header: Ticket, now: nat, f: TktFlag)
    requires TgsBacked(req.options, header.flags) && f in GRANTED
    ensures f in TgsFlags(realm, req, server, header, now) ==> f in header.flags
  {
  }

  lemma TgsFlagKept(realm: Realm, req: Request, server: DbEntry, header: Ticket, now: nat, f: TktFlag)
    requires f in AUTHENTICATED
    ensures f in TgsFlags(realm, req, server, header, now) <==> f in header.flags
  {
    assert f !in TgsRequestedFlags(req, header);
    assert f in TgsBaseFlags(req, header) ==> f in header.flags;
  }

  lemma TgsForwardedKept(realm: Realm, req: Request, server: DbEntry, header: Ticket, now: nat)
    ensures Forwarded in header.flags ==> Forwarded in TgsFlags(realm, req, server, header, now)
  {
  }

  lemma HopFlags(c: Chain)
    requires c.Hop? && c.Valid()
    ensures var h, t := c.header.Last().flags, c.Last().flags;
            && t * GRANTED <= h
            && (PreAuth in t <==> PreAuth in h) && (HwAuth in t <==> HwAuth in h)
            && (Forwarded in h ==> Forwarded in t)
  {
    var h := c.header.Last();
    TgsFlagKept(c.realm, c.req, c.server, h, c.now, PreAuth);
    TgsFlagKept(c.realm, c.req, c.server, h, c.now, HwAuth);
    TgsForwardedKept(c.realm, c.req, c.server, h, c.now);
    forall f | f in GRANTED ensures f in c.Last().flags ==> f in h.flags {
      TgsFlagGranted(c.realm, c.req, c.server, h, c.now, f);
    }
  }

  lemma RootFlags(c: Chain)
    requires c.Root?
    ensures PreAuth in c.Last().flags <==> Proved(c.req, EncTimestamp)
    ensures HwAuth in c.Last().flags <==> Proved(c.req, SamResponse)
  {
    AsTicketGranted(c.realm, c.req, c.client, c.server, c.now);
    assert AsFlag(c.req, c.client, c.Last().times, PreAuth) <==> Proved(c.req, EncTimestamp);
    assert AsFlag(c.req, c.client, c.Last().times, HwAuth) <==> Proved(c.req, SamResponse);
  }

  /** Powers a ticket grants come from the root only; what was proved about the client at the root stays. */
  lemma {:induction false} ChainFlags(c: Chain)
    requires c.Valid()
    ensures c.First().Root?
    ensures var r, t := c.First().Last().flags, c.Last().flags;
            && t * GRANTED <= r
            && (PreAuth in t <==> Proved(c.First().req, EncTimestamp))
            && (HwAuth in t <==> Proved(c.First().req, SamResponse))
            && (Forwarded in r ==> Forwarded in t)
  {
    if c.Hop? {
      ChainFlags(c.header);
      HopFlags(c);
    } else {
      RootFlags(c);
    }
  }

  /** A forwarded ticket anywhere in the chain marks all that follow. */
  lemma {:induction false} ForwardedStays(c: Chain, d: Chain)
    requires d.Valid() && Extends(d, c)
    ensures Forwarded in c.Last().flags ==> Forwarded in d.Last().flags
  {
    if d != c {
      ForwardedStays(c, d.header);
      HopFlags(d);
    }
  }

  /** A client that must preauthenticate has done so in every ticket it ever holds. */
  lemma PreauthEnforced(c: Chain)
    requires c.Valid()
    ensures c.First().Root?
    ensures RequiresPreAuth in c.First().client.attributes ==>
              PreAuth in c.Last().flags && Proved(c.First().req, EncTimestamp)
    ensures RequiresHwAuth in c.First().client.attributes ==>
              HwAuth in c.Last().flags && Proved(c.First().req, SamResponse)
  {
    ChainTimes(c);
    ChainFlags(c);
  }

  // ----- Client, addresses, authorization data -----

  ghost predicate Suffix<T>(s: seq<T>, t: seq<T>) {
    |s| <= |t| && t[|t| - |s|..] == s
  }

  /** A server that asks for preauthentication is reached only by clients that have done it. */
  lemma ServerPreauth(c: Chain)
    requires c.Hop? && c.Valid()
    ensures c.First().Root?
    ensures RequiresPreAuth in c.server.attributes ==> Proved(c.First().req, EncTimestamp)
    ensures RequiresHwAuth in c.server.attributes ==> Proved(c.First().req, SamResponse)
  {
    ChainFlags(c.header);
  }

  // ----- Policy -----

  /** The flags that an attribute of the client keeps out of its tickets. */
  function Barred(a: Attribute): set<TktFlag> {
    if a == DisallowForwardable then {Forwardable, Forwarded}
    else if a == DisallowProxiable then {Proxiable, Proxy}
    else if a == DisallowPostdated then {MayPostdate, Postdated, Invalid}
    else if a == DisallowRenewable then {Renewable}
    else {}
  }

  lemma AsBarred(c: Chain, a: Attribute, f: TktFlag)
    requires c.Root? && AsEligible(c.req, c.client, c.server, c.now)
    requires a in c.client.attributes && f in Barred(a)
    ensures f !in c.Last().flags
  {
    assert f !in AUTHENTICATED && Earned(c.req.PaElements()) <= AUTHENTICATED;
    assert f !in AsOptionFlags(c.realm, c.req, c.client, c.server, c.now);
  }

  lemma TgsBarred(realm: Realm, req: Request, server: DbEntry, header: Ticket, now: nat, a: Attribute, f: TktFlag)
    requires TgsBacked(req.options, header.flags) && header.flags !! Barred(a) && f in Barred(a)
    ensures f !in TgsFlags(realm, req, server, header, now)
  {
    TgsTicketDates(realm, req, server, header, now);
    TgsTicketFlag(req, header, TgsTimes(realm, req, server, header, now), f);
    assert f !in header.flags;
    if a == DisallowForwardable {
      assert Forwardable !in header.flags;
    } else if a == DisallowProxiable {
      assert Proxiable !in header.flags;
    } else if a == DisallowPostdated {
      assert MayPostdate !in header.flags;
    } else {
      assert Renewable !in header.flags;
    }
  }

  /** What the client's entry rules out appears in no ticket it ever gets, from any KDC of the chain. */
  lemma {:induction false} ClientPolicy(c: Chain, a: Attribute)
    requires c.Valid()
    ensures c.First().Root?
    ensures a in c.First().client.attributes ==> c.Last().flags !! Barred(a)
  {
    if c.Hop? {
      ClientPolicy(c.header, a);
      var h := c.header.Last();
      if h.flags !! Barred(a) {
        forall f | f in Barred(a) ensures f !in c.Last().flags {
          TgsBarred(c.realm, c.req, c.server, h, c.now, a, f);
        }
      }
    } else if a in c.client.attributes {
      forall f | f in Barred(a) ensures f !in c.Last().flags {
        AsBarred(c, a, f);
      }
    }
  }

  /** The flags that an attribute of the server is there to keep out of tickets for it. */
  function RuledOut(a: Attribute): set<TktFlag> {
    if a == DisallowForwardable then {Forwardable}
    else if a == DisallowProxiable then {Proxiable}
    else if a == DisallowPostdated then {MayPostdate, Postdated}
    else if a == DisallowRenewable then {Renewable}
    else {}
  }

  /** A root ticket carries what its server's entry rules out only where it is renewable instead of long. */
  lemma RootServerPolicy(c: Chain, a: Attribute, f: TktFlag)
    requires c.Root? && c.Valid()
    ensures a in c.server.attributes && f in RuledOut(a) ==>
              (f in c.Last().flags <==> f == Renewable && AsRenewableInstead(c.realm, c.req, c.client, c.server, c.now))
  {
    if a in c.server.attributes && f in RuledOut(a) {
      RequestedAllowed(c.req, c.client, c.server, c.now, a, f);
      assert f !in AUTHENTICATED && Earned(c.req.PaElements()) <= AUTHENTICATED;
    }
  }

  lemma RequestedAllowed(req: Request, client: DbEntry, server: DbEntry, now: nat, a: Attribute, f: TktFlag)
    requires AsEligible(req, client, server, now) && a in server.attributes && f in RuledOut(a)
    ensures f !in AsRequestedFlags(req) && (f == Renewable ==> OptRenewable !in req.options)
  {
  }

  lemma TgsServerPolicy(realm: Realm, req: Request, server: DbEntry, header: Ticket, now: nat, a: Attribute, f: TktFlag)
    requires TgsAllowed(req, server, header, now) && a in server.attributes && f in RuledOut(a)
    ensures f in TgsFlags(realm, req, server, header, now) <==>
            || (f == Renewable && TgsRenewableInstead(realm, req, server, header, now))
            || (if OptRenew in req.options || OptValidate in req.options then f in header.flags
                else f == Postdated && OptPostdated in req.options)
  {
    assert f !in AUTHENTICATED;
    if OptRenew !in req.options && OptValidate !in req.options {
      assert f in TgsRequestedFlags(req, header) <==> f == Postdated && OptPostdated in req.options;
    } else {
      assert f in TgsBaseFlags(req, header) <==> f in header.flags;
    }
  }

  /**
   A later ticket carries what its server's entry rules out exactly if it is renewable instead of
   long, if it is postdated, or if it renews or validates a ticket that carries it already.
   */
  lemma HopServerPolicy(c: Chain, a: Attribute, f: TktFlag)
    requires c.Hop? && c.Valid()
    ensures a in c.server.attributes && f in RuledOut(a) ==>
              (f in c.Last().flags <==>
               || (f == Renewable && TgsRenewableInstead(c.realm, c.req, c.server, c.header.Last(), c.now))
               || (if OptRenew in c.req.options || OptValidate in c.req.options then f in c.header.Last().flags
                   else f == Postdated && OptPostdated in c.req.options))
  {
    if a in c.server.attributes && f in RuledOut(a) {
      TgsServerPolicy(c.realm, c.req, c.server, c.header.Last(), c.now, a, f);
    }
  }

  /** A proxy ticket can only be asked for a ticket granting server, and only with a ticket for that server. */
  lemma AdmittedProxy(realm: Realm, req: Request, server: DbEntry, header: Ticket, now: nat)
    requires TgsAdmissible(realm, req, server, header, now)
    ensures OptProxy in req.options ==>
              && req.server.components != [] && req.server.components[0] == KRBTGT && header.server == req.server
  {
  }

  lemma {:induction false} ChainClient(c: Chain)
    requires c.Valid()
    ensures c.Last().client == c.First().Last().client
  {
    if c.Hop? { ChainClient(c.header); }
  }

  lemma TgsAddressesKept(req: Request, header: Ticket)
    requires TgsBacked(req.options, header.flags) && Forwardable !in header.flags && Proxiable !in header.flags
    ensures TgsAddresses(req, header) == header.caddrs
  {
  }

  /** Without FORWARDABLE and PROXIABLE in the root, the addresses can never change. */
  lemma {:induction false} ChainAddresses(c: Chain)
    requires c.Valid() && c.First().Last().flags !! {Forwardable, Proxiable}
    ensures c.Last().caddrs == c.First().Last().caddrs
  {
    if c.Hop? {
      ChainAddresses(c.header);
      ChainFlags(c.header);
      var h := c.header.Last();
      assert Forwardable in h.flags ==> Forwardable in h.flags * GRANTED;
      assert Proxiable in h.flags ==> Proxiable in h.flags * GRANTED;
      TgsAddressesKept(c.req, h);
    }
  }

  lemma SuffixTrans<T>(a: seq<T>, b: seq<T>, c: seq<T>)
    requires Suffix(a, b) && Suffix(b, c)
    ensures Suffix(a, c)
  {
    var k := |c| - |b|;
    assert c[k..][|b| - |a|..] == c[k + (|b| - |a|)..];
  }

  lemma AuthdataSuffix(req: Request, header: Ticket)
    ensures Suffix(header.authdata, TgsAuthdata(req, header))
  {
  }

  /** No authorization data is ever dropped, changed or reordered on the way. */
  lemma {:induction false} ChainAuthdata(c: Chain, d: Chain)
    requires Extends(d, c)
    ensures Suffix(c.Last().authdata, d.Last().authdata)
  {
    if d != c {
      ChainAuthdata(c, d.header);
      AuthdataSuffix(d.req, d.header.Last());
      SuffixTrans(c.Last().authdata, d.header.Last().authdata, d.Last().authdata);
    }
  }

  // ----- Transited realms -----

  /** The realms that issued a header ticket of the chain and had to be named at that step. */
  function Visited(c: Chain): set<string> {
    match c
    case Root(_, _, _, _, _) => {}
    case Hop(header, realm, req, server, now) =>
      var h := header.Last();
      Visited(header) +
      (if Crosses(realm, h) && h.server.realm != req.server.realm then {h.server.realm} else {})
  }

  /** Every realm that serves a ticket of the chain has a legal name, in the given set. */
  predicate RealmsIn(c: Chain, realms: set<string>) {
    c.Hop? ==>
      && LegalRealm(c.header.Last().server.realm) && c.header.Last().server.realm in realms
      && RealmsIn(c.header, realms)
  }

  /** The transited field of every ticket stands for exactly the realms visited. */
  lemma {:induction false} ChainTransited(c: Chain, realms: set<string>)
    requires RealmsIn(c, realms) && NestOnLabels(realms)
    ensures Visited(c) <= realms
    ensures WellFormed(c.Last().transited) && Elements(Expand(c.Last().transited)) == Visited(c)
  {
    match c
    case Root(_, _, _, _, _) =>
      assert Fields("") == [];
    case Hop(header, realm, req, server, now) =>
      ChainTransited(header, realms);
      var h := header.Last();
      if Crosses(realm, h) {
        AddNested(h.transited, h.server.realm, h.client.realm, req.server.realm, realms);
      }
  }

  /** A TGS ticket of such a chain is never made from a transited field that outgrows its buffer. */
  lemma ChainInBounds(c: Chain, realms: set<string>)
    requires c.Hop? && RealmsIn(c, realms) && NestOnLabels(realms)
    ensures TransitedInBounds(c.realm, c.req, c.header.Last())
  {
    var h := c.header.Last();
    ChainTransited(c.header, realms);
    AddLengthFormed(h.transited, h.server.realm, h.client.realm, c.req.server.realm);
  }

  /** The realms of the KDCs that issued the tickets. */
  function Issuers(c: Chain): set<string> {
    if c.Root? then {c.realm.name} else Issuers(c.header) + {c.realm.name}
  }

  /** Each KDC issues tickets for servers of its own realm, foreign ticket granting servers included. */
  predicate OwnRealms(c: Chain) {
    c.req.server.realm == c.realm.name && (c.Hop? ==> OwnRealms(c.header))
  }

  lemma OwnServer(c: Chain)
    requires c.Valid() && OwnRealms(c)
    ensures c.Last().server.realm == c.realm.name
  {
  }

  lemma {:induction false} VisitedIssuers(c: Chain)
    requires c.Valid() && OwnRealms(c)
    ensures Issuers(c) - {c.realm.name, c.Last().client.realm} <= Visited(c)
    ensures Visited(c) <= Issuers(c) - {c.Last().client.realm}
  {
    if c.Hop? {
      VisitedIssuers(c.header);
      OwnServer(c.header);
    }
  }

  /**
   In every chain of KDCs that serve their own realms, the transited field names every KDC that
   had a part in it, except the last one and the client's own, and nothing else.
   */
  lemma ChainNamesIssuers(c: Chain, realms: set<string>)
    requires c.Valid() && OwnRealms(c) && RealmsIn(c, realms) && NestOnLabels(realms)
    ensures var named := Elements(Expand(c.Last().transited));
            && Issuers(c) - {c.realm.name, c.Last().client.realm} <= named
            && named <= Issuers(c) - {c.Last().client.realm}
  {
    ChainTransited(c, realms);
    VisitedIssuers(c);
  }

  // ----- Renewal -----

  /** The step computes a renewal limit, from the header ticket's, rather than set it to 0. */
  predicate ComputesLimit(realm: Realm, req: Request, server: DbEntry, header: Ticket, now: nat) {
    OptRenewable in req.options || TgsRenewableInstead(realm, req, server, header, now)
  }

  lemma TgsRenewableFlag(realm: Realm, req: Request, server: DbEntry, header: Ticket, now: nat)
    requires TgsBacked(req.options, header.flags)
    ensures Renewable in TgsFlags(realm, req, server, header, now) <==>
            && Renewable in header.flags
            && (ComputesLimit(realm, req, server, header, now) || OptRenew in req.options || OptValidate in req.options)
  {
  }

  lemma TgsLimit(realm: Realm, req: Request, server: DbEntry, header: Ticket, now: nat)
    requires now > 0
    ensures TgsRenewTill(realm, req, server, header, now) == 0 <==>
            (ComputesLimit(realm, req, server, header, now) ==> header.times.renewTill == 0)
  {
  }

  /**
   A ticket has the flag RENEWABLE but no renewal limit exactly if it is made from a renewable
   ticket, and either that one had lost its limit and the new limit is computed from it, or the
   request renews or validates without asking for a renewable ticket as well.
   */
  lemma LimitLost(c: Chain)
    requires c.Hop? && c.Valid()
    ensures c.now > 0 ==>
              (Renewable in c.Last().flags && c.Last().times.renewTill == 0 <==>
               && Renewable in c.header.Last().flags
               && if ComputesLimit(c.realm, c.req, c.server, c.header.Last(), c.now)
                  then c.header.Last().times.renewTill == 0
                  else OptRenew in c.req.options || OptValidate in c.req.options)
  {
    var h := c.header.Last();
    TgsRenewableFlag(c.realm, c.req, c.server, h, c.now);
    if c.now > 0 { TgsLimit(c.realm, c.req, c.server, h, c.now); }
  }

  /** A postdated ticket from the TGS gets the requested start time only if that is the time of issue. */
  lemma PostdatedHop(c: Chain)
    requires c.Hop? && c.Valid() && OptPostdated in c.req.options
    requires OptRenew !in c.req.options && OptValidate !in c.req.options
    ensures {Postdated, Invalid} <= c.Last().flags
    ensures EffectiveStart(c.Last().times) == c.req.from <==> c.req.from == c.now
  {
    ChainTimes(c);
    ChainTimes(c.header);
    HopTimes(c);
  }

  lemma TgsRenewalBound(realm: Realm, req: Request, server: DbEntry, header: Ticket, now: nat)
    ensures TgsRenewTill(realm, req, server, header, now) <= header.times.renewTill
  {
  }

  lemma HopRenewal(c: Chain)
    requires c.Hop? && c.Valid() && c.header.Last().times.renewTill == 0 && c.header.now > 0
    ensures OptRenew !in c.req.options && c.Last().times.renewTill == 0
  {
    TgsRenewalBound(c.realm, c.req, c.server, c.header.Last(), c.now);
  }

  /** Once the limit is gone, no renewal succeeds anywhere later in the chain. */
  lemma {:induction false} NoFurtherRenewal(c: Chain, d: Chain)
    requires d.Valid() && Extends(d, c) && c.Last().times.renewTill == 0 && c.now > 0
    ensures d.now > 0 && d.Last().times.renewTill == 0
    ensures d != c ==> OptRenew !in d.req.options
  {
    if d != c {
      NoFurtherRenewal(c, d.header);
      HopRenewal(d);
    }
  }
}
