/**
 Tickets, requests and database entries, and what is said of them without reference to the
 code: which requests deserve a ticket, and which ticket.

 Times are natural numbers; 0 means "absent" where the code says so.
 */
module Tickets {
  import opened Options
  import opened Transited

  datatype TktFlag =
    | Forwardable | Forwarded | Proxiable | Proxy | MayPostdate | Postdated
    | Invalid | Renewable | Initial | PreAuth | HwAuth

  /** `OptOther` stands for every option bit the KDC does not handle. */
  datatype KdcOpt =
    | OptForwardable | OptForwarded | OptProxiable | OptProxy | OptAllowPostdate | OptPostdated
    | OptRenewable | OptRenewableOk | OptEncTktInSkey | OptRenew | OptValidate | OptOther(bit: nat)

  datatype Attribute =
    | DisallowPostdated | DisallowForwardable | DisallowTgtBased | DisallowRenewable
    | DisallowProxiable | DisallowDupSkey | DisallowAllTix | RequiresPreAuth | RequiresHwAuth
    | RequiresPwchange | DisallowSvr | PwchangeService

  datatype KdcError =
    | BadOption | KeyExpired | NameExpired | ServiceExpired | CannotPostdate | Policy
    | ClientUnknown | ServerUnknown | ServerNoMatch | NotUs | TicketInvalid | TicketNotYetValid
    | TicketExpired | GenericError | PreauthFailed | PreauthRequired | IllegalTransited

  datatype Principal = Principal(realm: string, components: seq<string>)

  datatype AuthData = AuthData(adType: int, contents: string)

  datatype Times = Times(authtime: nat, starttime: nat, endtime: int, renewTill: nat)

  /** A ticket with its encrypted part in the clear. */
  datatype Ticket = Ticket(
    server: Principal, client: Principal, flags: set<TktFlag>, times: Times,
    caddrs: seq<string>, authdata: seq<AuthData>, transited: string)

  datatype DbEntry = DbEntry(
    attributes: set<Attribute>, maxLife: nat, maxRenewableLife: nat, expiration: nat, pwExpiration: nat)

  /** The per-realm settings of a KDC; `realm` is the realm of its ticket granting server. */
  datatype Realm = Realm(name: string, maxLife: nat, maxRenewableLife: nat)

  datatype PaType = EncTimestamp | SamResponse | EtypeInfo | PwSalt | SamChallenge | OtherPa

  /** A preauthentication element and whether its verification routine accepts it. */
  datatype PaData = PaData(paType: PaType, verifies: bool)

  /** `authdata` is the decrypted authorization data, if the request carries any. */
  datatype Request = Request(
    options: set<KdcOpt>, client: Principal, server: Principal, from: nat, till: nat, rtime: nat,
    addresses: seq<string>, authdata: Option<seq<AuthData>>, padata: Option<seq<PaData>>,
    secondServer: Option<Principal>, secondClient: Principal)
  {
    /** The preauthentication elements; none if the list is absent. */
    function PaElements(): seq<PaData> {
      if padata.None? then [] else padata.value
    }
  }

  /** `Undefined`: the KDC has written past the end of a buffer. */
  datatype Reply = Issued(ticket: Ticket) | Refused(error: KdcError) | Undefined

  /** The time from which a ticket is good: a missing start time means the time of authentication. */
  function EffectiveStart(t: Times): nat {
    if t.starttime == 0 then t.authtime else t.starttime
  }

  function EffectiveLife(t: Times): int {
    t.endtime - EffectiveStart(t)
  }

  // ----- Which AS requests deserve a ticket -----

  /** Neither entry's policy rules out what the options ask for. */
  predicate AsAllowed(options: set<KdcOpt>, entry: DbEntry) {
    && (OptAllowPostdate in options || OptPostdated in options ==> DisallowPostdated !in entry.attributes)
    && (OptForwardable in options ==> DisallowForwardable !in entry.attributes)
    && (OptRenewable in options ==> DisallowRenewable !in entry.attributes)
    && (OptProxiable in options ==> DisallowProxiable !in entry.attributes)
  }

  /** The request carries an element of the given type that verifies. */
  predicate Proved(req: Request, paType: PaType) {
    req.padata.Some? && PaData(paType, true) in req.padata.value
  }

  /** The request carries an element of the given type, whether or not it verifies. */
  predicate Offered(req: Request, paType: PaType) {
    req.padata.Some? && (PaData(paType, true) in req.padata.value || PaData(paType, false) in req.padata.value)
  }

  /** The client has preauthenticated as its entry demands, and has not failed to where it tried. */
  predicate AsAuthentic(req: Request, client: DbEntry) {
    && (RequiresPreAuth in client.attributes ==> Proved(req, EncTimestamp))
    && (RequiresHwAuth in client.attributes ==> Proved(req, SamResponse))
    && (Offered(req, EncTimestamp) || Offered(req, SamResponse) ==>
          Proved(req, EncTimestamp) || Proved(req, SamResponse))
  }

  /** Client and server are in good standing, and the options are ones the exchange knows and policy allows. */
  predicate AsEligible(req: Request, client: DbEntry, server: DbEntry, now: nat) {
    && req.options <= {OptForwardable, OptProxiable, OptAllowPostdate, OptPostdated, OptRenewable, OptRenewableOk}
    && (client.expiration == 0 || now <= client.expiration)
    && (server.expiration == 0 || now <= server.expiration)
    && (PwchangeService in server.attributes ||
        ((client.pwExpiration == 0 || now <= client.pwExpiration) && RequiresPwchange !in client.attributes))
    && DisallowAllTix !in client.attributes
    && DisallowAllTix !in server.attributes && DisallowSvr !in server.attributes
    && AsAllowed(req.options, client) && AsAllowed(req.options, server)
  }

  /** A condition for a ticket, and the error if it fails. */
  datatype Check = Check(holds: bool, error: KdcError)

  /** No condition fails, or the error belongs to the first that does. */
  ghost predicate Decided(checks: seq<Check>, error: Option<KdcError>) {
    match error
    case None => forall i :: 0 <= i < |checks| ==> checks[i].holds
    case Some(e) =>
      exists i :: 0 <= i < |checks| && checks[i] == Check(false, e) && forall j :: 0 <= j < i ==> checks[j].holds
  }

  lemma DecidedBoth(a: seq<Check>, b: seq<Check>, ea: Option<KdcError>, eb: Option<KdcError>)
    requires Decided(a, ea) && Decided(b, eb)
    ensures Decided(a + b, if ea.Some? then ea else eb)
  {
    if ea.Some? {
      var i :| 0 <= i < |a| && a[i] == Check(false, ea.value) && forall j :: 0 <= j < i ==> a[j].holds;
      assert (a + b)[i] == Check(false, ea.value);
    } else if eb.Some? {
      var i :| 0 <= i < |b| && b[i] == Check(false, eb.value) && forall j :: 0 <= j < i ==> b[j].holds;
      assert (a + b)[|a| + i] == Check(false, eb.value);
    }
  }

  /** The conditions on an AS request, in the order in which they are looked at; then those on preauthentication. */
  function AsChecks(req: Request, client: DbEntry, server: DbEntry, now: nat): seq<Check> {
    var either := client.attributes + server.attributes;
    [ Check(req.options <= {OptForwardable, OptProxiable, OptAllowPostdate, OptPostdated, OptRenewable, OptRenewableOk},
            BadOption),
      Check(client.pwExpiration == 0 || now <= client.pwExpiration || PwchangeService in server.attributes, KeyExpired),
      Check(client.expiration == 0 || now <= client.expiration, NameExpired),
      Check(server.expiration == 0 || now <= server.expiration, ServiceExpired),
      Check(RequiresPwchange in client.attributes ==> PwchangeService in server.attributes, KeyExpired),
      Check(req.options !! {OptAllowPostdate, OptPostdated} || DisallowPostdated !in either, CannotPostdate),
      Check(&& (OptForwardable in req.options ==> DisallowForwardable !in either)
            && (OptRenewable in req.options ==> DisallowRenewable !in either)
            && (OptProxiable in req.options ==> DisallowProxiable !in either), Policy),
      Check(DisallowAllTix !in client.attributes, ClientUnknown),
      Check(server.attributes !! {DisallowAllTix, DisallowSvr}, ServerUnknown) ]
  }

  function PreauthChecks(req: Request, client: DbEntry): seq<Check> {
    [ Check(&& (Offered(req, EncTimestamp) || Offered(req, SamResponse) ==>
                  Proved(req, EncTimestamp) || Proved(req, SamResponse))
            && (req.padata.None? || client.attributes !! {RequiresPreAuth, RequiresHwAuth}
                || Proved(req, EncTimestamp) || Proved(req, SamResponse)), PreauthFailed),
      Check(&& (RequiresPreAuth in client.attributes ==> Proved(req, EncTimestamp))
            && (RequiresHwAuth in client.attributes ==> Proved(req, SamResponse)), PreauthRequired) ]
  }

  // ----- Which TGS requests do -----

  /** The header ticket allows what the options ask for. */
  predicate TgsBacked(options: set<KdcOpt>, flags: set<TktFlag>) {
    && (OptForwarded in options || OptForwardable in options ==> Forwardable in flags)
    && (OptProxy in options || OptProxiable in options ==> Proxiable in flags)
    && (OptAllowPostdate in options || OptPostdated in options ==> MayPostdate in flags)
    && (OptRenew in options || OptRenewable in options ==> Renewable in flags)
  }

  /** The header ticket is for this server, or is a ticket granting ticket for the server's realm. */
  predicate TgsAddressed(req: Request, server: DbEntry, header: Ticket) {
    if req.options !! {OptForwarded, OptProxy, OptRenew, OptValidate} then
      && header.server.components == ["krbtgt", req.server.realm]
      && DisallowTgtBased !in server.attributes
    else
      header.server == req.server
  }

  /** The server's entry allows what the options ask for, and serves at all. */
  predicate TgsAllowed(req: Request, server: DbEntry, header: Ticket, now: nat) {
    && (server.expiration == 0 || now <= server.expiration)
    && DisallowAllTix !in server.attributes && DisallowSvr !in server.attributes
    && (OptForwardable in req.options ==> DisallowForwardable !in server.attributes)
    && (OptRenewable in req.options ==> DisallowRenewable !in server.attributes)
    && (OptProxiable in req.options ==> DisallowProxiable !in server.attributes)
    && (OptAllowPostdate in req.options ==> DisallowPostdated !in server.attributes)
    && (OptEncTktInSkey in req.options ==> DisallowDupSkey !in server.attributes)
    && (RequiresPreAuth in server.attributes ==> PreAuth in header.flags)
    && (RequiresHwAuth in server.attributes ==> HwAuth in header.flags)
  }

  predicate TgsAdmissible(realm: Realm, req: Request, server: DbEntry, header: Ticket, now: nat) {
    && (forall o :: o in req.options ==> !o.OptOther?)
    && (header.client.realm == realm.name ==> header.server.realm == realm.name)
    && TgsBacked(req.options, header.flags)
    && TgsAddressed(req, server, header)
    && TgsAllowed(req, server, header, now)
    && (OptValidate in req.options <==> Invalid in header.flags)
    && (OptValidate in req.options ==> header.times.starttime <= now)
    && (OptRenew in req.options ==> now <= header.times.renewTill)
    && (OptProxy in req.options ==> req.server.components != [] && req.server.components[0] == "krbtgt")
    && (OptEncTktInSkey in req.options ==>
          req.secondServer == Some(Principal(realm.name, ["krbtgt", realm.name])))
  }

  /** The conditions on a TGS request, in the order in which they are looked at. */
  function TgsChecks(realm: Realm, req: Request, server: DbEntry, header: Ticket, now: nat): seq<Check> {
    HeaderChecks(realm, req, header) +
    (RequestChecks(req, server, now) +
     (NameChecks(req, server, header) +
      (OptionChecks(req, header) +
       (ServerChecks(req, server) + TicketChecks(realm, req, server, header, now)))))
  }

  function HeaderChecks(realm: Realm, req: Request, header: Ticket): seq<Check> {
    [ Check(Invalid in header.flags ==> OptValidate in req.options, TicketInvalid),
      Check(header.client.realm == realm.name ==> header.server.realm == realm.name, Policy) ]
  }

  function RequestChecks(req: Request, server: DbEntry, now: nat): seq<Check> {
    [ Check(forall o :: o in req.options ==> !o.OptOther?, BadOption),
      Check(server.expiration == 0 || now <= server.expiration, ServiceExpired) ]
  }

  function NameChecks(req: Request, server: DbEntry, header: Ticket): seq<Check> {
    var own := req.options !! {OptForwarded, OptProxy, OptRenew, OptValidate};
    [ Check(own || header.server == req.server, ServerNoMatch),
      Check(own ==> header.server.components == ["krbtgt", req.server.realm], NotUs),
      Check(own ==> DisallowTgtBased !in server.attributes, Policy) ]
  }

  function OptionChecks(req: Request, header: Ticket): seq<Check> {
    [ Check(&& TgsBacked(req.options, header.flags)
            && (OptValidate in req.options ==> Invalid in header.flags)
            && (OptProxy in req.options ==> req.server.components != [] && req.server.components[0] == "krbtgt"),
            BadOption) ]
  }

  function ServerChecks(req: Request, server: DbEntry): seq<Check> {
    [ Check(&& (OptForwardable in req.options ==> DisallowForwardable !in server.attributes)
            && (OptRenewable in req.options ==> DisallowRenewable !in server.attributes)
            && (OptProxiable in req.options ==> DisallowProxiable !in server.attributes), Policy),
      Check(OptAllowPostdate in req.options ==> DisallowPostdated !in server.attributes, CannotPostdate),
      Check(OptEncTktInSkey in req.options ==> DisallowDupSkey !in server.attributes, Policy),
      Check(server.attributes !! {DisallowAllTix, DisallowSvr}, ServerUnknown) ]
  }

  function TicketChecks(realm: Realm, req: Request, server: DbEntry, header: Ticket, now: nat): seq<Check> {
    [ Check(OptValidate in req.options ==> header.times.starttime <= now, TicketNotYetValid),
      Check(OptRenew in req.options ==> now <= header.times.renewTill, TicketExpired),
      Check(OptEncTktInSkey in req.options ==> req.secondServer.Some?, BadOption),
      Check(OptEncTktInSkey in req.options ==>
              req.secondServer == Some(Principal(realm.name, ["krbtgt", realm.name])), Policy),
      Check(&& (RequiresHwAuth in server.attributes ==> HwAuth in header.flags)
            && (RequiresPreAuth in server.attributes ==> PreAuth in header.flags), GenericError) ]
  }

  // ----- Which ticket -----

  /** `x` is the least of the limits. */
  predicate Least(x: int, limits: set<int>) {
    x in limits && forall limit :: limit in limits ==> x <= limit
  }

  /** The time asked for; 0 asks for no end. */
  function Asked(t: nat): nat {
    if t == 0 then 2147483647 else t
  }

  /** The client gets less life than it asked for, and a renewable ticket will do. */
  predicate AsInstead(req: Request, client: DbEntry, t: Times) {
    OptRenewableOk in req.options && DisallowRenewable !in client.attributes && t.endtime < req.till
  }

  predicate AsDates(realm: Realm, req: Request, client: DbEntry, server: DbEntry, now: nat, t: Times) {
    var start := if OptPostdated in req.options then req.from else now;
    && t.authtime == now && t.starttime == (if start == now then 0 else start)
    && Least(t.endtime, {Asked(req.till), start + client.maxLife, start + server.maxLife, start + realm.maxLife})
    && if AsInstead(req, client, t) || OptRenewable in req.options then
         Least(t.renewTill, {Asked(if AsInstead(req, client, t) then req.till else req.rtime),
                             start + client.maxRenewableLife, start + server.maxRenewableLife,
                             start + realm.maxRenewableLife})
       else t.renewTill == 0
  }

  predicate AsFlag(req: Request, client: DbEntry, t: Times, f: TktFlag) {
    match f
    case Initial => true
    case Forwardable => OptForwardable in req.options
    case Proxiable => OptProxiable in req.options
    case MayPostdate => OptAllowPostdate in req.options
    case Postdated | Invalid => OptPostdated in req.options
    case Renewable => OptRenewable in req.options || AsInstead(req, client, t)
    case PreAuth => Proved(req, EncTimestamp)
    case HwAuth => Proved(req, SamResponse)
    case Forwarded | Proxy => false
  }

  ghost predicate AsGranted(realm: Realm, req: Request, client: DbEntry, server: DbEntry, now: nat, t: Ticket) {
    && t.server == req.server && t.client == req.client && t.caddrs == req.addresses
    && t.authdata == [] && t.transited == ""
    && AsDates(realm, req, client, server, now, t.times)
    && forall f :: f in t.flags <==> AsFlag(req, client, t.times, f)
  }

  predicate TgsInstead(req: Request, header: Ticket, t: Times) {
    && OptRenew !in req.options && OptRenewableOk in req.options && Renewable in header.flags
    && t.endtime < req.till
  }

  predicate TgsDates(realm: Realm, req: Request, server: DbEntry, header: Ticket, now: nat, t: Times) {
    var h := header.times;
    && t.authtime == h.authtime && t.starttime == (if now == h.authtime then 0 else now)
    && (if OptRenew in req.options then
          Least(t.endtime, {h.renewTill, now + h.endtime - (if h.starttime == 0 then h.authtime else h.starttime)})
        else
          Least(t.endtime, {Asked(req.till), now + server.maxLife, now + realm.maxLife, h.endtime}))
    && if TgsInstead(req, header, t) || OptRenewable in req.options then
         Least(t.renewTill, {Asked(if TgsInstead(req, header, t) then req.till else req.rtime), h.renewTill,
                             now + server.maxRenewableLife, now + realm.maxRenewableLife})
       else t.renewTill == 0
  }

  predicate TgsFlag(req: Request, header: Ticket, t: Times, f: TktFlag) {
    if f == PreAuth || f == HwAuth then f in header.flags
    else if f == Renewable && (OptRenewable in req.options || TgsInstead(req, header, t)) then true
    else if OptRenew in req.options then f in header.flags
    else if OptValidate in req.options then f in header.flags && f != Invalid
    else
      match f
      case Forwardable => OptForwardable in req.options
      case Forwarded => OptForwarded in req.options || Forwarded in header.flags
      case Proxiable => OptProxiable in req.options
      case Proxy => OptProxy in req.options
      case MayPostdate => OptAllowPostdate in req.options
      case Postdated | Invalid => OptPostdated in req.options
      case Renewable | Initial | PreAuth | HwAuth => false
  }

  ghost predicate TgsGranted(realm: Realm, req: Request, server: DbEntry, header: Ticket, now: nat, t: Ticket) {
    && t.server == req.server && t.client == header.client
    && t.caddrs == (if req.options !! {OptRenew, OptValidate} && !(req.options !! {OptForwarded, OptProxy})
                    then req.addresses else header.caddrs)
    && t.authdata == (if req.authdata.Some? then req.authdata.value else []) + header.authdata
    && t.transited == (if header.server.realm in {realm.name, header.client.realm} then header.transited
                       else AddSpec(header.transited, header.server.realm, header.client.realm, req.server.realm))
    && TgsDates(realm, req, server, header, now, t.times)
    && forall f :: f in t.flags <==> TgsFlag(req, header, t.times, f)
  }
}
