/**
 Ticket issuance: the AS and TGS exchanges (do_as_req.c, do_tgs_req.c), the request
 validators (kdc_util.c) and the preauthentication check (kdc_preauth.c).

 Cryptography, key and database lookup and message coding are outside the model: a
 request is given decoded, a header ticket decrypted and authenticated, the database
 entries found, and each preauthentication element comes with the outcome of its
 verification.
 */
module Kdc {
  import opened Options
  import opened Tickets
  import opened Transited

  const INFINITY: nat := 2147483647

  function Min(a: int, b: int): int {
    if a < b then a else b
  }

  function OrInfinity(t: nat): nat {
    if t == 0 then INFINITY else t
  }

  // ----- Validation of an AS request -----

  predicate AsHandled(o: KdcOpt) {
    o in {OptForwardable, OptProxiable, OptAllowPostdate, OptPostdated, OptRenewable, OptRenewableOk}
  }

  predicate Expired(t: nat, now: nat) {
    t != 0 && t < now
  }

  function ValidateAsRequest(req: Request, client: DbEntry, server: DbEntry, now: nat): Option<KdcError> {
    if exists o :: o in req.options && !AsHandled(o) then Some(BadOption)
    else if Expired(client.pwExpiration, now) && PwchangeService !in server.attributes then Some(KeyExpired)
    else if Expired(client.expiration, now) then Some(NameExpired)
    else if Expired(server.expiration, now) then Some(ServiceExpired)
    else if RequiresPwchange in client.attributes && PwchangeService !in server.attributes then Some(KeyExpired)
    else if (OptAllowPostdate in req.options || OptPostdated in req.options)
            && DisallowPostdated in client.attributes + server.attributes then Some(CannotPostdate)
    else if OptForwardable in req.options
            && DisallowForwardable in client.attributes + server.attributes then Some(Policy)
    else if OptRenewable in req.options
            && DisallowRenewable in client.attributes + server.attributes then Some(Policy)
    else if OptProxiable in req.options
            && DisallowProxiable in client.attributes + server.attributes then Some(Policy)
    else if DisallowAllTix in client.attributes then Some(ClientUnknown)
    else if DisallowAllTix in server.attributes then Some(ServerUnknown)
    else if DisallowSvr in server.attributes then Some(ServerUnknown)
    else None
  }

  // ----- Validation of a TGS request -----

  predicate TgsHandled(o: KdcOpt) {
    !o.OptOther?
  }

  const KRBTGT := "krbtgt"

  /** The options that renew, validate, forward or proxy the header ticket itself. */
  predicate NoTgtOption(options: set<KdcOpt>) {
    OptForwarded in options || OptProxy in options || OptRenew in options || OptValidate in options
  }

  function ValidateServerName(req: Request, server: DbEntry, header: Ticket): Option<KdcError> {
    if NoTgtOption(req.options) then
      (if header.server != req.server then Some(ServerNoMatch) else None)
    else if |header.server.components| != 2 then Some(NotUs)
    else if header.server.components[0] != KRBTGT then Some(NotUs)
    else if header.server.components[1] != req.server.realm then Some(NotUs)
    else if DisallowTgtBased in server.attributes then Some(Policy)
    else None
  }

  function ValidateOptions(req: Request, header: Ticket): Option<KdcError> {
    if (OptForwarded in req.options || OptForwardable in req.options) && Forwardable !in header.flags
    then Some(BadOption)
    else if (OptProxy in req.options || OptProxiable in req.options) && Proxiable !in header.flags
    then Some(BadOption)
    else if (OptAllowPostdate in req.options || OptPostdated in req.options) && MayPostdate !in header.flags
    then Some(BadOption)
    else if OptValidate in req.options && Invalid !in header.flags then Some(BadOption)
    else if (OptRenew in req.options || OptRenewable in req.options) && Renewable !in header.flags
    then Some(BadOption)
    else if OptProxy in req.options
            && (req.server.components == [] || req.server.components[0] != KRBTGT) then Some(BadOption)
    else None
  }

  function ValidateServer(req: Request, server: DbEntry): Option<KdcError> {
    if OptForwardable in req.options && DisallowForwardable in server.attributes then Some(Policy)
    else if OptRenewable in req.options && DisallowRenewable in server.attributes then Some(Policy)
    else if OptProxiable in req.options && DisallowProxiable in server.attributes then Some(Policy)
    else if OptAllowPostdate in req.options && DisallowPostdated in server.attributes then Some(CannotPostdate)
    else if OptEncTktInSkey in req.options && DisallowDupSkey in server.attributes then Some(Policy)
    else if DisallowAllTix in server.attributes then Some(ServerUnknown)
    else if DisallowSvr in server.attributes then Some(ServerUnknown)
    else None
  }

  function ValidateTicket(realm: Realm, req: Request, server: DbEntry, header: Ticket, now: nat): Option<KdcError> {
    if OptValidate in req.options && header.times.starttime > now then Some(TicketNotYetValid)
    else if OptRenew in req.options && header.times.renewTill < now then Some(TicketExpired)
    else if OptEncTktInSkey in req.options && req.secondServer.None? then Some(BadOption)
    else if OptEncTktInSkey in req.options
            && req.secondServer.value != Principal(realm.name, [KRBTGT, realm.name]) then Some(Policy)
    else if RequiresHwAuth in server.attributes && HwAuth !in header.flags then Some(GenericError)
    else if RequiresPreAuth in server.attributes && PreAuth !in header.flags then Some(GenericError)
    else None
  }

  function ValidateRequest(req: Request, server: DbEntry, now: nat): Option<KdcError> {
    if exists o :: o in req.options && !TgsHandled(o) then Some(BadOption)
    else if Expired(server.expiration, now) then Some(ServiceExpired)
    else None
  }

  /** validate_tgs_request, its checks in the order of the code. */
  function ValidateTgsRequest(realm: Realm, req: Request, server: DbEntry, header: Ticket, now: nat): Option<KdcError> {
    if ValidateRequest(req, server, now).Some? then ValidateRequest(req, server, now)
    else if ValidateServerName(req, server, header).Some? then ValidateServerName(req, server, header)
    else if ValidateOptions(req, header).Some? then ValidateOptions(req, header)
    else if ValidateServer(req, server).Some? then ValidateServer(req, server)
    else ValidateTicket(realm, req, server, header, now)
  }

  /**
   The checks on the header ticket (kdc_process_tgs_req): one that is not valid yet can only be
   validated, and no foreign realm can vouch for a client of this one.
   */
  function ValidateHeader(realm: Realm, req: Request, header: Ticket): Option<KdcError> {
    if Invalid in header.flags && OptValidate !in req.options then Some(TicketInvalid)
    else if header.server.realm != realm.name && header.client.realm == realm.name then Some(Policy)
    else None
  }

  /** A TGS request gets past the header-ticket checks and the validator. */
  predicate TgsAdmitted(realm: Realm, req: Request, server: DbEntry, header: Ticket, now: nat) {
    ValidateHeader(realm, req, header).None? && ValidateTgsRequest(realm, req, server, header, now).None?
  }

  /** The transited field, if it has to be extended, passes the length checks. */
  predicate TransitedFits(realm: Realm, req: Request, header: Ticket) {
    Crosses(realm, header) ==>
      Roomy("", Fields(header.transited)) && |TgsTransited(realm, req, header)| <= 498
  }

  /** The new transited field fits the buffer allocated for it. */
  predicate TransitedInBounds(realm: Realm, req: Request, header: Ticket) {
    Crosses(realm, header) ==>
      |TgsTransited(realm, req, header)| <= |header.transited| + |header.server.realm| + 2
  }

  // ----- Preauthentication -----

  /** The element's type has a verification routine. */
  predicate Verifiable(pa: PaData) {
    pa.paType == EncTimestamp || pa.paType == SamResponse
  }

  /** The flag that a verified element sets. */
  function PaFlag(pa: PaData): TktFlag
    requires Verifiable(pa)
  {
    if pa.paType == EncTimestamp then PreAuth else HwAuth
  }

  predicate Verified(pa: PaData) {
    Verifiable(pa) && pa.verifies
  }

  /** The flags earned by the verified elements of a request. */
  function Earned(padata: seq<PaData>): set<TktFlag> {
    set pa | pa in padata && Verified(pa) :: PaFlag(pa)
  }

  /** Some element verified, or none could and the client need not preauthenticate. */
  predicate PadataAccepted(client: DbEntry, padata: seq<PaData>) {
    || (exists pa :: pa in padata && Verified(pa))
    || ((forall pa :: pa in padata ==> !Verifiable(pa)) && client.attributes !! {RequiresPreAuth, RequiresHwAuth})
  }

  /**
   check_padata. No preauthentication system is marked required or sufficient, so every
   element is looked at; `flags` are the flags of the ticket being built.
   */
  method CheckPadata(client: DbEntry, padata: seq<PaData>, flags: set<TktFlag>)
    returns (ok: bool, flags': set<TktFlag>)
    ensures flags' == flags + Earned(padata)
    ensures ok <==> PadataAccepted(client, padata)
  {
    flags' := flags;
    var paOk, paFound := false, 0;
    for i := 0 to |padata|
      invariant flags' == flags + Earned(padata[..i])
      invariant paOk <==> exists pa :: pa in padata[..i] && Verified(pa)
      invariant paFound >= 0 && (paFound == 0 <==> forall pa :: pa in padata[..i] ==> !Verifiable(pa))
    {
      var pa := padata[i];
      assert padata[..i + 1] == padata[..i] + [pa];
      if !Verifiable(pa) { continue; }
      paFound := paFound + 1;
      if pa.verifies {
        flags' := flags' + {PaFlag(pa)};
        paOk := true;
      }
    }
    assert padata[..|padata|] == padata;
    ok := paOk || (paFound == 0 && RequiresPreAuth !in client.attributes && RequiresHwAuth !in client.attributes);
  }

  /** missing_required_preauth: the ticket lacks a kind of preauthentication the client must use. */
  predicate MissingPreauth(client: DbEntry, flags: set<TktFlag>) {
    || (RequiresPreAuth in client.attributes && PreAuth !in flags)
    || (RequiresHwAuth in client.attributes && HwAuth !in flags)
  }

  // ----- The AS exchange -----

  function AsStart(req: Request, now: nat): nat {
    if OptPostdated in req.options then req.from else now
  }

  function AsEnd(realm: Realm, req: Request, client: DbEntry, server: DbEntry, now: nat): int {
    var start := AsStart(req, now);
    Min(OrInfinity(req.till), start + Min(client.maxLife, Min(server.maxLife, realm.maxLife)))
  }

  /** The client asked for a longer life than it gets and will take a renewable ticket instead. */
  predicate AsRenewableInstead(realm: Realm, req: Request, client: DbEntry, server: DbEntry, now: nat) {
    && OptRenewableOk in req.options && DisallowRenewable !in client.attributes
    && AsEnd(realm, req, client, server, now) < req.till
  }

  function AsRenewTill(realm: Realm, req: Request, client: DbEntry, server: DbEntry, now: nat): nat {
    var instead := AsRenewableInstead(realm, req, client, server, now);
    if instead || OptRenewable in req.options then
      Min(OrInfinity(if instead then req.till else req.rtime),
          AsStart(req, now) + Min(client.maxRenewableLife, Min(server.maxRenewableLife, realm.maxRenewableLife)))
    else 0
  }

  function When<T>(c: bool, x: T): set<T> {
    if c then {x} else {}
  }

  function AsRequestedFlags(req: Request): set<TktFlag> {
    {Initial}
    + When(OptForwardable in req.options, Forwardable)
    + When(OptProxiable in req.options, Proxiable)
    + When(OptAllowPostdate in req.options, MayPostdate)
    + When(OptPostdated in req.options, Postdated) + When(OptPostdated in req.options, Invalid)
  }

  function AsOptionFlags(realm: Realm, req: Request, client: DbEntry, server: DbEntry, now: nat): set<TktFlag> {
    AsRequestedFlags(req)
    + When(OptRenewable in req.options || AsRenewableInstead(realm, req, client, server, now), Renewable)
  }

  function AsTimes(realm: Realm, req: Request, client: DbEntry, server: DbEntry, now: nat): Times {
    var start := AsStart(req, now);
    Times(now, if start == now then 0 else start, AsEnd(realm, req, client, server, now),
          AsRenewTill(realm, req, client, server, now))
  }

  /** The ticket an AS request is answered with. */
  function AsTicket(realm: Realm, req: Request, client: DbEntry, server: DbEntry, now: nat): Ticket {
    Ticket(
      req.server, req.client, AsOptionFlags(realm, req, client, server, now) + Earned(req.PaElements()),
      AsTimes(realm, req, client, server, now), req.addresses, [], "")
  }

  /** The flags the options ask for, and the start time (lines 187 to 215). */
  method RequestedAsPart(req: Request, now: nat) returns (flags: set<TktFlag>, starttime: nat)
    ensures flags == AsRequestedFlags(req) && starttime == AsStart(req, now)
  {
    flags := {};
    flags := flags + {Initial};
    if OptForwardable in req.options { flags := flags + {Forwardable}; }
    if OptProxiable in req.options { flags := flags + {Proxiable}; }
    if OptAllowPostdate in req.options { flags := flags + {MayPostdate}; }
    if OptPostdated in req.options {
      flags := flags + {Postdated};
      flags := flags + {Invalid};
      starttime := req.from;
    } else {
      starttime := now;
    }
  }

  /** The flags and times of the ticket, set step by step (lines 187 to 253). */
  method FillAsTicket(realm: Realm, req: Request, client: DbEntry, server: DbEntry, now: nat)
    returns (flags: set<TktFlag>, times: Times)
    ensures flags == AsOptionFlags(realm, req, client, server, now)
    ensures times == AsTimes(realm, req, client, server, now)
  {
    var options, rtime := req.options, req.rtime;
    var starttime: nat;
    flags, starttime := RequestedAsPart(req, now);
    var until := if req.till == 0 then INFINITY else req.till;
    var endtime := Min(until, Min(starttime + client.maxLife,
                                  Min(starttime + server.maxLife, starttime + realm.maxLife)));
    if OptRenewableOk in options && DisallowRenewable !in client.attributes && endtime < req.till {
      options := options + {OptRenewable};
      rtime := req.till;
    }
    rtime := if rtime == 0 then INFINITY else rtime;
    var renewTill: nat := 0;
    if OptRenewable in options {
      flags := flags + {Renewable};
      renewTill := Min(rtime, starttime + Min(client.maxRenewableLife,
                                              Min(server.maxRenewableLife, realm.maxRenewableLife)));
    }
    if starttime == now { starttime := 0; }
    times := Times(now, starttime, endtime, renewTill);
  }

  /** Preauthentication flags come from verified elements only. */
  lemma OnlyEarned(realm: Realm, req: Request, client: DbEntry, server: DbEntry, now: nat)
    ensures var earned := Earned(req.PaElements());
            MissingPreauth(client, AsOptionFlags(realm, req, client, server, now) + earned) <==>
            MissingPreauth(client, earned)
  {
    assert AsOptionFlags(realm, req, client, server, now) !! {PreAuth, HwAuth};
  }

  // ----- What the AS exchange decides, field by field -----

  lemma AsEligibility(req: Request, client: DbEntry, server: DbEntry, now: nat)
    ensures ValidateAsRequest(req, client, server, now).None? <==> AsEligible(req, client, server, now)
  {
    assert (exists o :: o in req.options && !AsHandled(o)) <==>
           !(req.options <=
             {OptForwardable, OptProxiable, OptAllowPostdate, OptPostdated, OptRenewable, OptRenewableOk});
  }

  lemma EarnedMeans(req: Request)
    ensures PreAuth in Earned(req.PaElements()) <==> Proved(req, EncTimestamp)
    ensures HwAuth in Earned(req.PaElements()) <==> Proved(req, SamResponse)
    ensures Earned(req.PaElements()) <= {PreAuth, HwAuth}
  {
    var pas := req.PaElements();
    forall pa | pa in pas && Verified(pa) ensures pa == PaData(pa.paType, true) {
    }
    if Proved(req, EncTimestamp) { assert Verified(PaData(EncTimestamp, true)); }
    if Proved(req, SamResponse) { assert Verified(PaData(SamResponse, true)); }
  }

  lemma AcceptedMeans(req: Request, client: DbEntry)
    requires req.padata.Some?
    ensures PadataAccepted(client, req.padata.value) <==>
            || Proved(req, EncTimestamp) || Proved(req, SamResponse)
            || (!Offered(req, EncTimestamp) && !Offered(req, SamResponse)
                && client.attributes !! {RequiresPreAuth, RequiresHwAuth})
  {
    var pas := req.padata.value;
    assert Proved(req, EncTimestamp) ==> Verified(PaData(EncTimestamp, true));
    assert Proved(req, SamResponse) ==> Verified(PaData(SamResponse, true));
    forall pa | pa in pas && Verifiable(pa) ensures Offered(req, pa.paType) {
      assert pa == PaData(pa.paType, pa.verifies);
    }
  }

  function PreauthError(req: Request, client: DbEntry): Option<KdcError> {
    if req.padata.Some? && !PadataAccepted(client, req.padata.value) then Some(PreauthFailed)
    else if MissingPreauth(client, Earned(req.PaElements())) then Some(PreauthRequired)
    else None
  }

  /** What stands in the way of a ticket, in the order of the code. */
  function AsError(req: Request, client: DbEntry, server: DbEntry, now: nat): Option<KdcError> {
    var refusal := ValidateAsRequest(req, client, server, now);
    if refusal.Some? then refusal else PreauthError(req, client)
  }

  lemma AsAdmission(req: Request, client: DbEntry, server: DbEntry, now: nat)
    ensures AsError(req, client, server, now).None? <==>
            AsEligible(req, client, server, now) && AsAuthentic(req, client)
  {
    AsEligibility(req, client, server, now);
    EarnedMeans(req);
    if req.padata.Some? { AcceptedMeans(req, client); }
  }

  lemma ValidateAsDecided(req: Request, client: DbEntry, server: DbEntry, now: nat)
    ensures Decided(AsChecks(req, client, server, now), ValidateAsRequest(req, client, server, now))
  {
    var checks, e := AsChecks(req, client, server, now), ValidateAsRequest(req, client, server, now);
    assert checks[0].holds <==> !exists o :: o in req.options && !AsHandled(o);
    if e.Some? {
      var i :=
        if !checks[0].holds then 0 else if !checks[1].holds then 1 else if !checks[2].holds then 2
        else if !checks[3].holds then 3 else if !checks[4].holds then 4 else if !checks[5].holds then 5
        else if !checks[6].holds then 6 else if !checks[7].holds then 7 else 8;
      assert checks[i] == Check(false, e.value);
    }
  }

  /** The error names the first condition that fails. */
  lemma AsRefusal(req: Request, client: DbEntry, server: DbEntry, now: nat)
    ensures Decided(AsChecks(req, client, server, now) + PreauthChecks(req, client), AsError(req, client, server, now))
  {
    ValidateAsDecided(req, client, server, now);
    var e := PreauthError(req, client);
    assert Decided(PreauthChecks(req, client), e) by {
      EarnedMeans(req);
      if req.padata.Some? { AcceptedMeans(req, client); }
      var checks := PreauthChecks(req, client);
      if e.Some? { assert checks[if e.value == PreauthFailed then 0 else 1] == Check(false, e.value); }
    }
    DecidedBoth(AsChecks(req, client, server, now), PreauthChecks(req, client),
                ValidateAsRequest(req, client, server, now), e);
  }

  lemma AsTicketDates(realm: Realm, req: Request, client: DbEntry, server: DbEntry, now: nat)
    ensures var t := AsTimes(realm, req, client, server, now);
            && AsDates(realm, req, client, server, now, t)
            && (AsRenewableInstead(realm, req, client, server, now) <==> AsInstead(req, client, t))
  {
  }

  lemma AsRequestedFlag(req: Request, f: TktFlag)
    ensures f in AsRequestedFlags(req) <==>
            match f
            case Initial => true
            case Forwardable => OptForwardable in req.options
            case Proxiable => OptProxiable in req.options
            case MayPostdate => OptAllowPostdate in req.options
            case Postdated | Invalid => OptPostdated in req.options
            case Forwarded | Proxy | Renewable | PreAuth | HwAuth => false
  {
  }

  lemma AsTicketFlag(req: Request, client: DbEntry, t: Times, f: TktFlag)
    ensures var renewable := OptRenewable in req.options || AsInstead(req, client, t);
            f in AsRequestedFlags(req) + When(renewable, Renewable) + Earned(req.PaElements()) <==>
            AsFlag(req, client, t, f)
  {
    AsRequestedFlag(req, f);
    EarnedMeans(req);
  }

  lemma AsTicketGranted(realm: Realm, req: Request, client: DbEntry, server: DbEntry, now: nat)
    ensures AsGranted(realm, req, client, server, now, AsTicket(realm, req, client, server, now))
  {
    var t := AsTicket(realm, req, client, server, now);
    AsTicketDates(realm, req, client, server, now);
    forall f ensures f in t.flags <==> AsFlag(req, client, t.times, f) {
      AsTicketFlag(req, client, t.times, f);
    }
  }

  method ProcessAsReq(realm: Realm, req: Request, client: DbEntry, server: DbEntry, now: nat)
    returns (r: Reply)
    ensures r.Issued? <==> AsEligible(req, client, server, now) && AsAuthentic(req, client)
    ensures r.Issued? ==> AsGranted(realm, req, client, server, now, r.ticket)
    ensures r.Issued? ==> r.ticket == AsTicket(realm, req, client, server, now)
    ensures r.Refused? ==> Decided(AsChecks(req, client, server, now) + PreauthChecks(req, client), Some(r.error))
  {
    AsAdmission(req, client, server, now);
    AsRefusal(req, client, server, now);
    AsTicketGranted(realm, req, client, server, now);
    var refusal := ValidateAsRequest(req, client, server, now);
    if refusal.Some? { return Refused(refusal.value); }

    var flags, times := FillAsTicket(realm, req, client, server, now);
    if req.padata.Some? {
      var ok: bool;
      ok, flags := CheckPadata(client, req.padata.value, flags);
      if !ok { return Refused(PreauthFailed); }
    }
    OnlyEarned(realm, req, client, server, now);
    if MissingPreauth(client, flags) { return Refused(PreauthRequired); }
    return Issued(Ticket(req.server, req.client, flags, times, req.addresses, [], ""));
  }

  // ----- The TGS exchange -----

  function TgsEnd(realm: Realm, req: Request, server: DbEntry, header: Ticket, now: nat): int {
    if OptRenew in req.options then
      Min(header.times.renewTill, now + EffectiveLife(header.times))
    else
      Min(OrInfinity(req.till), Min(now + Min(server.maxLife, realm.maxLife), header.times.endtime))
  }

  predicate TgsRenewableInstead(realm: Realm, req: Request, server: DbEntry, header: Ticket, now: nat) {
    && OptRenew !in req.options && OptRenewableOk in req.options && Renewable in header.flags
    && TgsEnd(realm, req, server, header, now) < req.till
  }

  function TgsRenewTill(realm: Realm, req: Request, server: DbEntry, header: Ticket, now: nat): nat {
    var instead := TgsRenewableInstead(realm, req, server, header, now);
    if instead || OptRenewable in req.options then
      Min(OrInfinity(if instead then Min(req.till, header.times.renewTill) else req.rtime),
          Min(header.times.renewTill, now + Min(server.maxRenewableLife, realm.maxRenewableLife)))
    else 0
  }

  function TgsTimes(realm: Realm, req: Request, server: DbEntry, header: Ticket, now: nat): Times {
    Times(header.times.authtime, if now == header.times.authtime then 0 else now,
          TgsEnd(realm, req, server, header, now), TgsRenewTill(realm, req, server, header, now))
  }

  /** A new ticket takes the header's flags in a renewal or validation, else the requested ones. */
  function TgsBaseFlags(req: Request, header: Ticket): set<TktFlag> {
    if OptRenew in req.options then header.flags
    else if OptValidate in req.options then header.flags - {Invalid}
    else TgsRequestedFlags(req, header)
  }

  function TgsRequestedFlags(req: Request, header: Ticket): set<TktFlag> {
    When(OptForwardable in req.options, Forwardable)
    + When(OptForwarded in req.options || Forwarded in header.flags, Forwarded)
    + When(OptProxiable in req.options, Proxiable)
    + When(OptProxy in req.options, Proxy)
    + When(OptAllowPostdate in req.options, MayPostdate)
    + When(OptPostdated in req.options, Postdated) + When(OptPostdated in req.options, Invalid)
  }

  function TgsFlags(realm: Realm, req: Request, server: DbEntry, header: Ticket, now: nat): set<TktFlag> {
    TgsBaseFlags(req, header)
    + When(OptRenewable in req.options || TgsRenewableInstead(realm, req, server, header, now), Renewable)
    + header.flags * {PreAuth, HwAuth}
  }

  function TgsAddresses(req: Request, header: Ticket): seq<string> {
    if OptRenew in req.options || OptValidate in req.options then header.caddrs
    else if OptForwarded in req.options || OptProxy in req.options then req.addresses
    else header.caddrs
  }

  function TgsAuthdata(req: Request, header: Ticket): seq<AuthData> {
    (if req.authdata.Some? then req.authdata.value else []) + header.authdata
  }

  /** The header ticket was issued by a realm that is neither this KDC's nor the client's. */
  predicate Crosses(realm: Realm, header: Ticket) {
    header.server.realm != realm.name && header.server.realm != header.client.realm
  }

  function TgsTransited(realm: Realm, req: Request, header: Ticket): string {
    if Crosses(realm, header) then
      AddSpec(header.transited, header.server.realm, header.client.realm, req.server.realm)
    else header.transited
  }

  /** The ticket an admitted TGS request is answered with. */
  function TgsTicket(realm: Realm, req: Request, server: DbEntry, header: Ticket, now: nat): Ticket {
    Ticket(
      req.server, header.client, TgsFlags(realm, req, server, header, now),
      TgsTimes(realm, req, server, header, now), TgsAddresses(req, header),
      TgsAuthdata(req, header), TgsTransited(realm, req, header))
  }

  /** concat_authorization_data: copies the first list, then the second. */
  method ConcatAuthorizationData(first: seq<AuthData>, second: seq<AuthData>) returns (output: seq<AuthData>)
    ensures output == first + second
  {
    output := [];
    var i, j, ptr := 0, 0, first;
    while j < 2
      invariant 0 <= j <= 2
      invariant j == 0 ==> output == [] && ptr == first
      invariant j == 1 ==> output == first && ptr == second
      invariant j == 2 ==> output == first + second
    {
      ghost var before := output;
      i := 0;
      while i < |ptr|
        invariant 0 <= i <= |ptr| && output == before + ptr[..i]
      {
        output := output + [ptr[i]];
        i := i + 1;
      }
      assert output == before + ptr;
      ptr, j := second, j + 1;
    }
  }

  /** The flags and addresses that the options ask for (lines 290 to 334). */
  method RequestedTgsPart(req: Request, header: Ticket, now: nat)
    returns (flags: set<TktFlag>, caddrs: seq<string>, starttime: nat)
    ensures flags == TgsRequestedFlags(req, header)
    ensures caddrs == if OptForwarded in req.options || OptProxy in req.options then req.addresses else header.caddrs
    ensures starttime == if OptPostdated in req.options then req.from else now
  {
    flags := {};
    caddrs := header.caddrs;
    if OptForwardable in req.options { flags := flags + {Forwardable}; }
    if OptForwarded in req.options {
      flags := flags + {Forwarded};
      caddrs := req.addresses;
    }
    if Forwarded in header.flags { flags := flags + {Forwarded}; }
    if OptProxiable in req.options { flags := flags + {Proxiable}; }
    if OptProxy in req.options {
      flags := flags + {Proxy};
      caddrs := req.addresses;
    }
    if OptAllowPostdate in req.options { flags := flags + {MayPostdate}; }
    if OptPostdated in req.options {
      flags := flags + {Postdated};
      flags := flags + {Invalid};
      starttime := req.from;
    } else {
      starttime := now;
    }
  }

  /** The renewal limit, the authentication time and the carried flags (lines 376 to 409). */
  method FinishTgsTicket(realm: Realm, server: DbEntry, header: Ticket, renewable: bool, requested: nat,
                         base: set<TktFlag>, now: nat, endtime: int)
    returns (flags: set<TktFlag>, times: Times)
    ensures flags == base + When(renewable, Renewable) + header.flags * {PreAuth, HwAuth}
    ensures times == Times(
      header.times.authtime, if now == header.times.authtime then 0 else now, endtime,
      if !renewable then 0
      else Min(OrInfinity(requested),
               Min(header.times.renewTill, now + Min(server.maxRenewableLife, realm.maxRenewableLife))))
  {
    flags, times := base, Times(0, now, endtime, 0);
    var rtime := if requested == 0 then INFINITY else requested;
    if renewable {
      flags := flags + {Renewable};
      var life := Min(server.maxRenewableLife, realm.maxRenewableLife);
      times := times.(renewTill := Min(rtime, Min(header.times.renewTill, times.starttime + life)));
    } else {
      times := times.(renewTill := 0);
    }
    times := times.(authtime := header.times.authtime);
    if PreAuth in header.flags { flags := flags + {PreAuth}; }
    if HwAuth in header.flags { flags := flags + {HwAuth}; }
    if times.starttime == times.authtime { times := times.(starttime := 0); }
  }

  /** VALIDATE and RENEW start from a copy of the header ticket, its start time filled in (lines 282 to 352). */
  method CopyHeader(req: Request, header: Ticket, now: nat)
    returns (flags: set<TktFlag>, caddrs: seq<string>, starttime: nat, endtime: int)
    ensures flags == TgsBaseFlags(req, header) && caddrs == TgsAddresses(req, header)
    ensures OptRenew in req.options ==> endtime - starttime == EffectiveLife(header.times)
  {
    endtime := 0;
    var headerStart := header.times.starttime;
    if headerStart == 0 { headerStart := header.times.authtime; }
    flags, caddrs, starttime := RequestedTgsPart(req, header, now);
    if OptValidate in req.options {
      flags, caddrs, starttime, endtime := header.flags, header.caddrs, headerStart, header.times.endtime;
      flags := flags - {Invalid};
    }
    if OptRenew in req.options {
      flags, caddrs, starttime, endtime := header.flags, header.caddrs, headerStart, header.times.endtime;
    }
  }

  /** The flags, addresses and times of the new ticket, set and overwritten as in lines 279 to 409. */
  method FillTgsTicket(realm: Realm, req: Request, server: DbEntry, header: Ticket, now: nat)
    returns (flags: set<TktFlag>, times: Times, caddrs: seq<string>)
    ensures flags == TgsFlags(realm, req, server, header, now)
    ensures times == TgsTimes(realm, req, server, header, now)
    ensures caddrs == TgsAddresses(req, header)
  {
    var options, rtime := req.options, req.rtime;
    var starttime: nat, endtime: int;
    flags, caddrs, starttime, endtime := CopyHeader(req, header, now);
    if OptRenew in options {
      var oldLife := endtime - starttime;
      starttime := now;
      endtime := Min(header.times.renewTill, now + oldLife);
    } else {
      starttime := now;
      var until := if req.till == 0 then INFINITY else req.till;
      endtime := Min(until, Min(starttime + server.maxLife, Min(starttime + realm.maxLife, header.times.endtime)));
      if OptRenewableOk in options && endtime < req.till && Renewable in header.flags {
        options := options + {OptRenewable};
        rtime := Min(req.till, header.times.renewTill);
      }
    }
    assert endtime == TgsEnd(realm, req, server, header, now);
    flags, times := FinishTgsTicket(realm, server, header, OptRenewable in options, rtime, flags, starttime, endtime);
  }

  // ----- What the TGS exchange decides, field by field -----

  lemma TgsServerName(req: Request, server: DbEntry, header: Ticket)
    ensures ValidateServerName(req, server, header).None? <==> TgsAddressed(req, server, header)
  {
    if |header.server.components| == 2 {
      assert header.server.components == [header.server.components[0], header.server.components[1]];
    }
  }

  lemma TgsHeader(req: Request, realm: Realm, header: Ticket)
    ensures ValidateHeader(realm, req, header).None? && ValidateOptions(req, header).None? <==>
            && (header.client.realm == realm.name ==> header.server.realm == realm.name)
            && TgsBacked(req.options, header.flags)
            && (OptValidate in req.options <==> Invalid in header.flags)
            && (OptProxy in req.options ==> req.server.components != [] && req.server.components[0] == "krbtgt")
  {
  }

  lemma TgsServer(realm: Realm, req: Request, server: DbEntry, header: Ticket, now: nat)
    ensures !Expired(server.expiration, now) && ValidateServer(req, server).None?
            && ValidateTicket(realm, req, server, header, now).None? <==>
            && TgsAllowed(req, server, header, now)
            && (OptValidate in req.options ==> header.times.starttime <= now)
            && (OptRenew in req.options ==> now <= header.times.renewTill)
            && (OptEncTktInSkey in req.options ==>
                  req.secondServer == Some(Principal(realm.name, ["krbtgt", realm.name])))
  {
  }

  lemma TgsAdmission(realm: Realm, req: Request, server: DbEntry, header: Ticket, now: nat)
    ensures TgsAdmitted(realm, req, server, header, now) <==> TgsAdmissible(realm, req, server, header, now)
  {
    TgsServerName(req, server, header);
    TgsHeader(req, realm, header);
    TgsServer(realm, req, server, header, now);
  }

  lemma NameDecided(req: Request, server: DbEntry, header: Ticket)
    ensures Decided(NameChecks(req, server, header), ValidateServerName(req, server, header))
  {
    var checks, e := NameChecks(req, server, header), ValidateServerName(req, server, header);
    if |header.server.components| == 2 {
      assert header.server.components == [header.server.components[0], header.server.components[1]];
    }
    if e.Some? {
      assert checks[if e.value == ServerNoMatch then 0 else if e.value == NotUs then 1 else 2] == Check(false, e.value);
    }
  }

  lemma ServerDecided(req: Request, server: DbEntry)
    ensures Decided(ServerChecks(req, server), ValidateServer(req, server))
  {
    var checks, e := ServerChecks(req, server), ValidateServer(req, server);
    if e.Some? {
      var i := if !checks[0].holds then 0 else if !checks[1].holds then 1 else if !checks[2].holds then 2 else 3;
      assert checks[i] == Check(false, e.value);
    }
  }

  lemma TicketDecided(realm: Realm, req: Request, server: DbEntry, header: Ticket, now: nat)
    ensures Decided(TicketChecks(realm, req, server, header, now), ValidateTicket(realm, req, server, header, now))
  {
    var checks, e := TicketChecks(realm, req, server, header, now), ValidateTicket(realm, req, server, header, now);
    if e.Some? {
      var i := if !checks[0].holds then 0 else if !checks[1].holds then 1 else if !checks[2].holds then 2
               else if !checks[3].holds then 3 else 4;
      assert checks[i] == Check(false, e.value);
    }
  }

  lemma StartDecided(realm: Realm, req: Request, server: DbEntry, header: Ticket, now: nat)
    ensures Decided(HeaderChecks(realm, req, header), ValidateHeader(realm, req, header))
    ensures Decided(RequestChecks(req, server, now), ValidateRequest(req, server, now))
    ensures Decided(OptionChecks(req, header), ValidateOptions(req, header))
  {
    var e := ValidateHeader(realm, req, header);
    if e.Some? {
      assert HeaderChecks(realm, req, header)[if e.value == TicketInvalid then 0 else 1] == Check(false, e.value);
    }
    e := ValidateRequest(req, server, now);
    if e.Some? {
      assert RequestChecks(req, server, now)[if e.value == BadOption then 0 else 1] == Check(false, e.value);
    }
    e := ValidateOptions(req, header);
    if e.Some? { assert OptionChecks(req, header)[0] == Check(false, BadOption); }
  }

  /** The error names the first condition that fails. */
  lemma TgsRefusal(realm: Realm, req: Request, server: DbEntry, header: Ticket, now: nat)
    ensures Decided(TgsChecks(realm, req, server, header, now),
                    if ValidateHeader(realm, req, header).Some? then ValidateHeader(realm, req, header)
                    else ValidateTgsRequest(realm, req, server, header, now))
  {
    StartDecided(realm, req, server, header, now);
    NameDecided(req, server, header);
    ServerDecided(req, server);
    TicketDecided(realm, req, server, header, now);
    var a, b, c, d := HeaderChecks(realm, req, header), RequestChecks(req, server, now),
                      NameChecks(req, server, header), OptionChecks(req, header);
    var e, f := ServerChecks(req, server), TicketChecks(realm, req, server, header, now);
    var eName, eOptions, eServer, eTicket := ValidateServerName(req, server, header), ValidateOptions(req, header),
                                             ValidateServer(req, server),
                                             ValidateTicket(realm, req, server, header, now);
    DecidedBoth(e, f, eServer, eTicket);
    eTicket := if eServer.Some? then eServer else eTicket;
    DecidedBoth(d, e + f, eOptions, eTicket);
    eTicket := if eOptions.Some? then eOptions else eTicket;
    DecidedBoth(c, d + (e + f), eName, eTicket);
    eTicket := if eName.Some? then eName else eTicket;
    DecidedBoth(b, c + (d + (e + f)), ValidateRequest(req, server, now), eTicket);
    DecidedBoth(a, b + (c + (d + (e + f))), ValidateHeader(realm, req, header),
                ValidateTgsRequest(realm, req, server, header, now));
  }

  lemma TgsTicketEnd(realm: Realm, req: Request, server: DbEntry, header: Ticket, now: nat)
    ensures var h, end := header.times, TgsEnd(realm, req, server, header, now);
            if OptRenew in req.options then
              Least(end, {h.renewTill, now + h.endtime - (if h.starttime == 0 then h.authtime else h.starttime)})
            else
              Least(end, {Asked(req.till), now + server.maxLife, now + realm.maxLife, h.endtime})
  {
  }

  lemma TgsTicketDates(realm: Realm, req: Request, server: DbEntry, header: Ticket, now: nat)
    ensures var t := TgsTimes(realm, req, server, header, now);
            && TgsDates(realm, req, server, header, now, t)
            && (TgsRenewableInstead(realm, req, server, header, now) <==> TgsInstead(req, header, t))
  {
    TgsTicketEnd(realm, req, server, header, now);
  }

  lemma TgsRequestedFlag(req: Request, header: Ticket, f: TktFlag)
    ensures f in TgsRequestedFlags(req, header) <==>
            match f
            case Forwardable => OptForwardable in req.options
            case Forwarded => OptForwarded in req.options || Forwarded in header.flags
            case Proxiable => OptProxiable in req.options
            case Proxy => OptProxy in req.options
            case MayPostdate => OptAllowPostdate in req.options
            case Postdated | Invalid => OptPostdated in req.options
            case Renewable | Initial | PreAuth | HwAuth => false
  {
  }

  lemma TgsTicketFlag(req: Request, header: Ticket, t: Times, f: TktFlag)
    ensures var renewable := OptRenewable in req.options || TgsInstead(req, header, t);
            f in TgsBaseFlags(req, header) + When(renewable, Renewable) + header.flags * {PreAuth, HwAuth} <==>
            TgsFlag(req, header, t, f)
  {
    TgsRequestedFlag(req, header, f);
  }

  lemma TgsTicketGranted(realm: Realm, req: Request, server: DbEntry, header: Ticket, now: nat)
    ensures TgsGranted(realm, req, server, header, now, TgsTicket(realm, req, server, header, now))
  {
    var t := TgsTicket(realm, req, server, header, now);
    TgsTicketDates(realm, req, server, header, now);
    forall f ensures f in t.flags <==> TgsFlag(req, header, t.times, f) {
      TgsTicketFlag(req, header, t.times, f);
    }
  }

  /** process_tgs_req, from the authenticated header ticket to the ticket it issues. */
  method ProcessTgsReq(realm: Realm, req: Request, server: DbEntry, header: Ticket, now: nat) returns (r: Reply)
    ensures r.Issued? <==> && TgsAdmissible(realm, req, server, header, now)
                           && TransitedFits(realm, req, header) && TransitedInBounds(realm, req, header)
                           && (OptEncTktInSkey in req.options ==> req.secondClient == req.server)
    ensures r.Issued? ==> TgsGranted(realm, req, server, header, now, r.ticket)
    ensures r.Issued? ==> r.ticket == TgsTicket(realm, req, server, header, now)
    ensures !TgsAdmissible(realm, req, server, header, now) ==>
              r.Refused? && Decided(TgsChecks(realm, req, server, header, now), Some(r.error))
    ensures TgsAdmissible(realm, req, server, header, now) && r.Refused? ==>
              if TransitedFits(realm, req, header) then r.error == ServerNoMatch
                && TransitedInBounds(realm, req, header)
              else r.error == IllegalTransited
    ensures r.Undefined? ==> !TransitedInBounds(realm, req, header)
  {
    TgsAdmission(realm, req, server, header, now);
    TgsRefusal(realm, req, server, header, now);
    TgsTicketGranted(realm, req, server, header, now);
    if Invalid in header.flags && OptValidate !in req.options { return Refused(TicketInvalid); }
    if header.server.realm != realm.name && header.client.realm == realm.name { return Refused(Policy); }
    var refusal := ValidateTgsRequest(realm, req, server, header, now);
    if refusal.Some? { return Refused(refusal.value); }
    var flags, times, caddrs := FillTgsTicket(realm, req, server, header, now);
    var ticketServer := if OptValidate in req.options || OptRenew in req.options then header.server else req.server;
    var authdata := header.authdata;
    if req.authdata.Some? {
      authdata := ConcatAuthorizationData(req.authdata.value, header.authdata);
    }
    assert authdata == TgsAuthdata(req, header);
    var transited := header.transited;
    if header.server.realm != realm.name && header.server.realm != header.client.realm {
      var outcome := AddToTransited(header.transited, header.server.realm, header.client.realm, req.server.realm);
      if outcome.IllegalCrossRealmTicket? { return Refused(IllegalTransited); }
      if outcome.Overrun? { return Undefined; }
      transited := outcome.trans;
    }
    if OptEncTktInSkey in req.options && req.server != req.secondClient { return Refused(ServerNoMatch); }
    return Issued(Ticket(ticketServer, header.client, flags, times, caddrs, authdata, transited));
  }
}
