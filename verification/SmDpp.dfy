/**
 The SM-DP+ server's handlers (pysim/osmo-smdpp.py, sections 5.6.1 to 5.6.5 of SGP.22) as steps over
 the session store. The store hands out copies: a handler that fails after changing its session has changed nothing.
 */
module SmDpp {
  import opened Bytes
  import opened Certificates
  import opened SessionLog
  import opened Wrappers

  /** One entry of the store. */
  datatype Session = Session(
    serverChallenge: bytes,
    ciCertId: bytes,
    euiccCert: Option<Cert>,
    eumCert: Option<Cert>,
    eid: Option<string>,
    matchingId: Option<string>,
    smdpSignature2: Option<bytes>,
    euiccOtpk: Option<bytes>)

  /** What a handler answers: success, an error with its status codes, or an exception of another kind. */
  datatype Reply<+T> = Success(value: T) | ApiError(subject: string, reason: string) | Raised

  datatype Initiated = Initiated(transactionId: string, serverChallenge: bytes, ciPkidToBeUsed: bytes)

  datatype ServerResponse =
    | Undecodable
    | ResponseError
    | Response(signed1: bytes, signature: bytes, euicc: Cert, eum: Cert)

  datatype DownloadResponse =
    | DownloadUndecodable
    | DownloadError
    | Downloading(signed2: bytes, signature2: bytes)

  datatype CancelResponse =
    | CancelUndecodable
    | CancelError
    | Cancelling(signed: bytes, signature: bytes)

  datatype Notification =
    | NotificationUndecodable
    /** The result of a profile installation. */
    | Installation(result: bytes, signature: bytes)
    | OtherNotification(euicc: Cert, eum: Cert, metadata: bytes, signature: bytes)

  /** A request to one of the handlers, with what the random sources and the directory of profiles give it. */
  datatype Request =
    | Initiate(smdpAddress: string, euiccChallenge: bytes, forSigning: seq<bytes>, forVerification: seq<bytes>,
               newTx: string, serverChallenge: bytes)
    | Authenticate(tx: string, response: ServerResponse, files: set<string>, smdpSignature: bytes)
    | GetPackage(tx: string, download: DownloadResponse, files: set<string>, encodes: bool)
    | Cancel(tx: string, cancel: CancelResponse)
    | Notify(notification: Notification)

  /** A session as its issue at `j` left it, or as the authentication at `k` did. */
  predicate BackedAt(setup: Setup, log: seq<Event>, tx: string, s: Session, j: nat, k: nat) {
    && OpenSince(log, j, tx) && log[j] == Issued(tx, s.serverChallenge, s.ciCertId)
    && match s.euiccCert
       case None => s.matchingId == None && s.smdpSignature2 == None && j < |log| == k && Quiet(log, j, tx, false)
       case Some(cert) =>
         && AuthenticSince(setup, log, j, k, tx)
         && log[k].euicc == cert && s.matchingId == Some(log[k].matchingId)
         && s.smdpSignature2 == Some(log[k].smdpSignature2)
  }

  ghost predicate Backed(setup: Setup, log: seq<Event>, tx: string, s: Session) {
    exists j: nat, k: nat :: BackedAt(setup, log, tx, s, j, k)
  }

  /** Every session goes back to the log, and every transaction going on is in the store. */
  ghost predicate Tied(setup: Setup, log: seq<Event>, rss: map<string, Session>) {
    && (forall tx :: tx in rss ==> Backed(setup, log, tx, rss[tx]))
    && (forall tx :: Ongoing(log, tx) ==> tx in rss)
  }

  /** An event leaves other transactions alone. */
  lemma {:induction false} OthersStayBacked(setup: Setup, log: seq<Event>, tx: string, s: Session, e: Event)
    requires Backed(setup, log, tx, s) && e.tx != tx
    ensures Backed(setup, log + [e], tx, s)
  {
    var j: nat, k: nat :| BackedAt(setup, log, tx, s, j, k);
    BackedAtExtends(setup, log, tx, s, j, k, e);
  }

  /** A package, too, leaves the session as it is backed. */
  lemma {:induction false} BackedAtExtends(setup: Setup, log: seq<Event>, tx: string, s: Session, j: nat, k: nat, e: Event)
    requires BackedAt(setup, log, tx, s, j, k) && (e.tx != tx || e.Package?)
    ensures Backed(setup, log + [e], tx, s)
  {
    hide AuthChecks;
    var k' := if s.euiccCert.None? then |log + [e]| else k;
    QuietExtends(log, j, tx, true, e);
    if s.euiccCert.Some? {
      QuietExtends(log, k, tx, false, e);
    } else {
      QuietExtends(log, j, tx, false, e);
    }
    assert BackedAt(setup, log + [e], tx, s, j, k');
  }

  lemma QuietExtends(log: seq<Event>, i: nat, tx: string, orAuth: bool, e: Event)
    requires Quiet(log, i, tx, orAuth)
    ensures Quiet(log + [e], i, tx, orAuth) <==> i >= |log| || e.tx != tx || e.Package? || (orAuth && e.Authenticated?)
  {
    if i < |log| {
      assert (log + [e])[|log|] == e;
    }
  }

  /** Only an issue opens a transaction. */
  lemma {:induction false} OngoingBefore(log: seq<Event>, tx: string, e: Event)
    requires Ongoing(log + [e], tx) && !(e.Issued? && e.tx == tx)
    ensures Ongoing(log, tx) && !(e.Ends() && e.tx == tx)
  {
    var j: nat :| OpenSince(log + [e], j, tx);
    assert j < |log|;
    forall m | j < m < |log| && log[m].tx == tx ensures log[m].Package? || log[m].Authenticated? {
      assert (log + [e])[m] == log[m];
    }
    assert OpenSince(log, j, tx);
    assert (log + [e])[|log|] == e;
  }

  /** After an event of one transaction the store may hold anything for it that is backed. */
  lemma {:induction false} TiedAfter(setup: Setup, log: seq<Event>, rss: map<string, Session>, e: Event, s: Session)
    requires Tied(setup, log, rss) && Backed(setup, log + [e], e.tx, s)
    ensures Tied(setup, log + [e], rss[e.tx := s])
  {
    hide Backed, Ongoing;
    forall tx | tx in rss && tx != e.tx ensures Backed(setup, log + [e], tx, rss[tx]) {
      OthersStayBacked(setup, log, tx, rss[tx], e);
    }
    forall tx | Ongoing(log + [e], tx) && tx != e.tx ensures tx in rss {
      OngoingBefore(log, tx, e);
    }
  }

  lemma {:induction false} TiedAfterEnd(setup: Setup, log: seq<Event>, rss: map<string, Session>, e: Event)
    requires Tied(setup, log, rss) && e.Ends()
    ensures Tied(setup, log + [e], rss - {e.tx})
  {
    hide Backed, Ongoing;
    forall tx | tx in rss && tx != e.tx ensures Backed(setup, log + [e], tx, rss[tx]) {
      OthersStayBacked(setup, log, tx, rss[tx], e);
    }
    forall tx | Ongoing(log + [e], tx) ensures tx in rss && tx != e.tx {
      OngoingBefore(log, tx, e);
    }
  }

  lemma {:induction false} IssueBacks(setup: Setup, log: seq<Event>, tx: string, s: Session)
    requires s == NewSession(s.serverChallenge, s.ciCertId)
    ensures Backed(setup, log + [Issued(tx, s.serverChallenge, s.ciCertId)], tx, s)
  {
    var after := log + [Issued(tx, s.serverChallenge, s.ciCertId)];
    assert BackedAt(setup, after, tx, s, |log|, |after|);
  }

  lemma {:induction false} AuthenticationBacks(setup: Setup, log: seq<Event>, s: Session, a: Event, t: Session)
    requires Backed(setup, log, a.tx, s) && a.Authenticated? && AuthChecks(setup, s.serverChallenge, s.ciCertId, a)
    requires t.serverChallenge == s.serverChallenge && t.ciCertId == s.ciCertId
    requires t.euiccCert == Some(a.euicc) && t.matchingId == Some(a.matchingId)
    requires t.smdpSignature2 == Some(a.smdpSignature2)
    ensures MayFollow(setup, log, a) && Backed(setup, log + [a], a.tx, t)
  {
    hide AuthChecks;
    var j: nat, k: nat :| BackedAt(setup, log, a.tx, s, j, k);
    assert OpenSince(log, j, a.tx);
    QuietExtends(log, j, a.tx, true, a);
    assert BackedAt(setup, log + [a], a.tx, t, j, |log|);
  }

  /** What the session says of the authentication it goes back to. */
  lemma {:induction false} SessionIsAuthentic(setup: Setup, log: seq<Event>, tx: string, s: Session)
    returns (j: nat, k: nat)
    requires Backed(setup, log, tx, s) && s.euiccCert.Some?
    ensures AuthenticSince(setup, log, j, k, tx) && BackedAt(setup, log, tx, s, j, k)
  {
    j, k :| BackedAt(setup, log, tx, s, j, k);
  }

  /** A loaded root with the key, if there is one, can be used. */
  predicate NoObstacle(setup: Setup, pkid: bytes) {
    FirstWithKey(setup.ciCerts, pkid).Some? ==> UsableRoot(setup.signed, FirstWithKey(setup.ciCerts, pkid).value)
  }

  /** The `i`-th key is that of the root the server's certificate comes from, and nothing before it raises an exception. */
  predicate ChainsAt(setup: Setup, pkids: seq<bytes>, i: nat) {
    && i < |pkids| && pkids[i] == setup.dpAuth.authKeyId
    && FirstWithKey(setup.ciCerts, pkids[i]).Some?
    && var root := FirstWithKey(setup.ciCerts, pkids[i]).value;
    && UsableRoot(setup.signed, root) && setup.signed(setup.dpAuth, root)
    && forall j :: 0 <= j < i ==> NoObstacle(setup, pkids[j])
  }

  /**
   The `i`-th key is that of a loaded root which cannot be used, or which claims to have signed the server's certificate
   and has not, and nothing before it decides.
   */
  predicate RaisesAt(setup: Setup, pkids: seq<bytes>, i: nat) {
    && i < |pkids| && FirstWithKey(setup.ciCerts, pkids[i]).Some?
    && var root := FirstWithKey(setup.ciCerts, pkids[i]).value;
    && (UsableRoot(setup.signed, root) ==> pkids[i] == setup.dpAuth.authKeyId && !setup.signed(setup.dpAuth, root))
    && forall j :: 0 <= j < i ==> IsPassedBy(setup, pkids[j])
  }

  /** The loop goes on past this key: there is no root with it, or it has nothing to do with the server's certificate. */
  predicate IsPassedBy(setup: Setup, pkid: bytes) {
    FirstWithKey(setup.ciCerts, pkid).Some? ==>
      UsableRoot(setup.signed, FirstWithKey(setup.ciCerts, pkid).value) && pkid != setup.dpAuth.authKeyId
  }

  ghost predicate Chains(setup: Setup, pkids: seq<bytes>) {
    exists i :: 0 <= i < |pkids| && ChainsAt(setup, pkids, i)
  }

  ghost predicate Raises(setup: Setup, pkids: seq<bytes>) {
    exists i :: 0 <= i < |pkids| && RaisesAt(setup, pkids, i)
  }

  /** What the key at which the loop ends says of all the keys. */
  lemma DecidedAt(setup: Setup, pkids: seq<bytes>, i: nat)
    requires i < |pkids| && (forall j :: 0 <= j < i ==> IsPassedBy(setup, pkids[j])) && !IsPassedBy(setup, pkids[i])
    ensures Chains(setup, pkids) <==> ChainsAt(setup, pkids, i)
    ensures Raises(setup, pkids) <==> RaisesAt(setup, pkids, i)
    ensures ChainsAt(setup, pkids, i) <==> !RaisesAt(setup, pkids, i)
  {
    hide UsableRoot;
    if k :| 0 <= k < |pkids| && ChainsAt(setup, pkids, k) {
      assert k >= i;
    }
    if k :| 0 <= k < |pkids| && RaisesAt(setup, pkids, k) {
      assert k == i;
    }
  }

  lemma NeverDecided(setup: Setup, pkids: seq<bytes>)
    requires forall j :: 0 <= j < |pkids| ==> IsPassedBy(setup, pkids[j])
    ensures !Chains(setup, pkids) && !Raises(setup, pkids)
  {
  }

  /** Without intermediate certificates the check of the server's certificate is one signature. */
  lemma {:induction false} DirectChain(setup: Setup, root: Cert)
    ensures Chain(setup.signed, root, map[], setup.dpAuth, 100) ==
            if setup.dpAuth.authKeyId != root.subjectKeyId then NoChain
            else if setup.signed(setup.dpAuth, root) then Passed
            else BadSignature
  {
  }

  /**
   `validate_certificate_chain_for_verification`: whether the server's certificate comes from a loaded root with one of
   these keys. Keys of no loaded root are passed by, and so are other roots, unless they cannot be used.
   */
  method ValidateCertificateChain(setup: Setup, pkids: seq<bytes>) returns (r: Reply<bool>)
    ensures r == Success(true) <==> Chains(setup, pkids)
    ensures r == Raised <==> Raises(setup, pkids)
    ensures !r.ApiError?
  {
    hide UsableRoot, Chain, Chains, Raises, ChainsAt, RaisesAt;
    var i := 0;
    while i < |pkids|
      invariant 0 <= i <= |pkids|
      invariant forall j :: 0 <= j < i ==> IsPassedBy(setup, pkids[j])
    {
      var ciCert := CiGetCertForPkid(setup.ciCerts, pkids[i]);
      if ciCert.Some? {
        DirectChain(setup, ciCert.value);
        var cs := CertificateSet.ForRoot(setup.signed, ciCert.value);
        if cs == null {
          DecidedAt(setup, pkids, i);
          UnusableRaises(setup, pkids, i);
          return Raised;
        }
        var verdict := cs.VerifyCertChain(setup.signed, setup.dpAuth);
        if verdict != NoChain {
          DecidedAt(setup, pkids, i);
          SignatureDecides(setup, pkids, i);
          return if verdict == Passed then Success(true) else Raised;
        }
      }
      i := i + 1;
    }
    NeverDecided(setup, pkids);
    r := Success(false);
  }

  lemma UnusableRaises(setup: Setup, pkids: seq<bytes>, i: nat)
    requires i < |pkids| && forall j :: 0 <= j < i ==> IsPassedBy(setup, pkids[j])
    requires FirstWithKey(setup.ciCerts, pkids[i]).Some?
    requires !UsableRoot(setup.signed, FirstWithKey(setup.ciCerts, pkids[i]).value)
    ensures RaisesAt(setup, pkids, i)
  {
  }

  lemma SignatureDecides(setup: Setup, pkids: seq<bytes>, i: nat)
    requires i < |pkids| && forall j :: 0 <= j < i ==> IsPassedBy(setup, pkids[j])
    requires FirstWithKey(setup.ciCerts, pkids[i]).Some? && pkids[i] == setup.dpAuth.authKeyId
    requires UsableRoot(setup.signed, FirstWithKey(setup.ciCerts, pkids[i]).value)
    ensures ChainsAt(setup, pkids, i) <==> setup.signed(setup.dpAuth, FirstWithKey(setup.ciCerts, pkids[i]).value)
  {
    hide UsableRoot;
  }

  /** A server certificate that chains to a key directly has it as its authority key. */
  lemma {:induction false} ChainsToItsAuthority(setup: Setup, pkids: seq<bytes>)
    requires Chains(setup, pkids)
    ensures setup.dpAuth.authKeyId in pkids
    ensures exists root :: root in setup.ciCerts && root.subjectKeyId == setup.dpAuth.authKeyId
                           && setup.signed(setup.dpAuth, root)
  {
    var i :| 0 <= i < |pkids| && ChainsAt(setup, pkids, i);
    assert setup.signed(setup.dpAuth, FirstWithKey(setup.ciCerts, pkids[i]).value);
  }

  /** The checks of the client's certificates. */
  method CheckCertificates(setup: Setup, ciCertId: bytes, eum: Cert, euicc: Cert) returns (r: Reply<()>)
    ensures r.Success? <==> Trusted(setup, ciCertId, eum, euicc)
    ensures r.ApiError? ==> r in {ApiError("8.11.1", "3.9"), ApiError("8.1.3", "6.1")}
    ensures r == ApiError("8.11.1", "3.9") <==> eum.authKeyId != ciCertId
  {
    if eum.authKeyId != ciCertId {
      return ApiError("8.11.1", "3.9");
    }
    var root := CiGetCertForPkid(setup.ciCerts, ciCertId);
    if root.None? {
      return Raised;
    }
    var cs := CertificateSet.ForRoot(setup.signed, root.value);
    if cs == null {
      return Raised;
    }
    var ok := cs.AddIntermediate(eum);
    if !ok {
      return Raised;
    }
    assert cs.intermediates == map[eum.subjectKeyId := eum];
    OneIntermediate(setup.signed, root.value, eum, euicc);
    var verdict := cs.VerifyCertChain(setup.signed, euicc);
    match verdict
    case Passed => r := Success(());
    case NoChain => r := ApiError("8.1.3", "6.1");
    case BadSignature => r := Raised;
  }

  const SIGNATURE_LENGTH := 64

  /** `_ecdsa_verify`, which raises an exception for a signature of the wrong length. */
  function EcdsaVerify(setup: Setup, cert: Cert, signature: bytes, data: bytes): Reply<bool> {
    if |signature| != SIGNATURE_LENGTH then Raised else Success(setup.verify(cert, signature, data))
  }

  /** The event an answer to this response would be, with the signature given for it. */
  function AsEvent(setup: Setup, tx: string, response: ServerResponse, smdpSignature: bytes): Event
    requires response.Response?
  {
    var matchingId := setup.signed1(response.signed1).matchingId;
    Authenticated(tx, response.euicc, response.eum, response.signed1, response.signature,
                  if matchingId.Some? then matchingId.value else "", SIGNATURE_TAG + smdpSignature)
  }

  lemma {:induction false} PackageFollows(setup: Setup, log: seq<Event>, s: Session, t: Session, p: Event)
    requires p.Package? && Backed(setup, log, p.tx, s) && s.euiccCert == Some(p.signedBy) && s.smdpSignature2.Some?
    requires s.matchingId == Some(p.profile) && t == s.(euiccOtpk := t.euiccOtpk)
    requires setup.verify(p.signedBy, p.signature2, p.signed2 + s.smdpSignature2.value)
    requires setup.signed2(p.signed2).transactionId == setup.h2b(p.tx)
    ensures MayFollow(setup, log, p) && Backed(setup, log + [p], p.tx, t)
  {
    hide AuthChecks;
    var j, k := SessionIsAuthentic(setup, log, p.tx, s);
    assert PackageChecks(setup, log[k], p);
    assert BackedAt(setup, log, p.tx, t, j, k);
    BackedAtExtends(setup, log, p.tx, t, j, k, p);
  }

  lemma {:induction false} InstallFollows(setup: Setup, log: seq<Event>, s: Session, e: Event)
    requires e.Installed? && Backed(setup, log, e.tx, s) && s.euiccCert == Some(e.reportedBy)
    requires setup.verify(e.reportedBy, e.resultSignature, e.result) && setup.b2h(setup.installed(e.result)) == e.tx
    ensures MayFollow(setup, log, e)
  {
    hide AuthChecks;
    var j, k := SessionIsAuthentic(setup, log, e.tx, s);
    assert InstallChecks(setup, log[k], e);
  }

  /** The key a client sent for a package is not what backs its session. */
  lemma {:induction false} KeyIsFree(setup: Setup, log: seq<Event>, rss: map<string, Session>, tx: string, t: Session)
    requires Tied(setup, log, rss) && tx in rss && t == rss[tx].(euiccOtpk := t.euiccOtpk)
    ensures Tied(setup, log, rss[tx := t])
  {
    hide AuthChecks, Quiet, OpenSince, AuthenticSince, Ongoing;
    var j: nat, k: nat :| BackedAt(setup, log, tx, rss[tx], j, k);
    assert BackedAt(setup, log, tx, t, j, k);
  }

  lemma {:induction false} CancelFollows(setup: Setup, log: seq<Event>, s: Session, c: Event)
    requires c.Cancelled? && Backed(setup, log, c.tx, s) && s.euiccCert == Some(c.cancelledBy)
    requires setup.verify(c.cancelledBy, c.cancelSignature, c.cancelSigned)
    requires setup.cancelSigned(c.cancelSigned) == CancelSigned(setup.h2b(c.tx), setup.dpAuthOid)
    ensures MayFollow(setup, log, c)
  {
    hide AuthChecks;
    var j, k := SessionIsAuthentic(setup, log, c.tx, s);
    assert CancelChecks(setup, log[k], c);
  }

  function NewSession(serverChallenge: bytes, ciCertId: bytes): Session {
    Session(serverChallenge, ciCertId, None, None, None, None, None, None)
  }

  class SmDppHttpServer {
    const setup: Setup
    var rss: map<string, Session>
    ghost var log: seq<Event>

    ghost predicate Valid()
      reads this
    {
      Tied(setup, log, rss) && Safe(setup, log)
    }

    constructor (setup: Setup)
      ensures Valid() && this.setup == setup && rss == map[] && log == []
    {
      this.setup, rss, log := setup, map[], [];
    }

    /** An event recorded together with what the store holds afterwards. */
    ghost method Record(e: Event, s: Session)
      requires Valid() && MayFollow(setup, log, e) && Backed(setup, log + [e], e.tx, s)
      modifies this`log
      ensures log == old(log) + [e] && Safe(setup, log) && Tied(setup, log, rss[e.tx := s])
    {
      TiedAfter(setup, log, rss, e, s);
      SafeExtends(setup, log, e);
      log := log + [e];
    }

    /**
     `initiateAuthentication`; the transaction identifier and the challenge are what the random sources give. The
     root it chooses is always the one its own certificate was signed with.
     */
    method InitiateAuthentication(smdpAddress: string, euiccChallenge: bytes, forSigning: seq<bytes>,
                                  forVerification: seq<bytes>, tx: string, serverChallenge: bytes)
      returns (r: Reply<Initiated>)
      requires Valid()
      modifies this
      ensures Valid()
      ensures r.Success? <==>
              && smdpAddress == setup.hostname && |euiccChallenge| == 16
              && (forVerification == [] || Chains(setup, forVerification))
              && setup.dpAuth.authKeyId in forSigning
              && FirstWithKey(setup.ciCerts, setup.dpAuth.authKeyId).Some?
              && tx !in old(rss)
      ensures r.Success? ==>
              && r.value == Initiated(tx, serverChallenge, setup.dpAuth.authKeyId)
              && log == old(log) + [Issued(tx, serverChallenge, setup.dpAuth.authKeyId)]
              && rss == old(rss)[tx := NewSession(serverChallenge, setup.dpAuth.authKeyId)]
      ensures !r.Success? ==> rss == old(rss) && log == old(log)
      ensures smdpAddress != setup.hostname <==> r == ApiError("8.8.1", "3.8")
      ensures r == ApiError("8.8.4", "3.7") <==>
              && smdpAddress == setup.hostname && |euiccChallenge| == 16
              && forVerification != [] && !Chains(setup, forVerification) && !Raises(setup, forVerification)
      ensures r == ApiError("8.8.2", "3.1") <==>
              && smdpAddress == setup.hostname && |euiccChallenge| == 16
              && (forVerification == [] || Chains(setup, forVerification))
              && (setup.dpAuth.authKeyId !in forSigning || FirstWithKey(setup.ciCerts, setup.dpAuth.authKeyId).None?)
      ensures r.ApiError? ==> r in {ApiError("8.8.1", "3.8"), ApiError("8.8.4", "3.7"), ApiError("8.8.2", "3.1")}
    {
      hide Tied, Safe, Backed, Ongoing, Quiet, Chains, Raises;
      if smdpAddress != setup.hostname {
        return ApiError("8.8.1", "3.8");
      }
      if |euiccChallenge| != 16 {
        return Raised;
      }
      if forVerification != [] {
        var chains := ValidateCertificateChain(setup, forVerification);
        if chains == Raised {
          return Raised;
        }
        if chains != Success(true) {
          return ApiError("8.8.4", "3.7");
        }
      }
      var ciCert := ChooseCi(forSigning);
      if ciCert.None? {
        return ApiError("8.8.2", "3.1");
      }
      if tx in rss {
        return Raised;
      }
      var s := NewSession(serverChallenge, ciCert.value.subjectKeyId);
      IssueBacks(setup, log, tx, s);
      NotOngoing(tx);
      Record(Issued(tx, serverChallenge, ciCert.value.subjectKeyId), s);
      rss := rss[tx := s];
      r := Success(Initiated(tx, serverChallenge, setup.dpAuth.authKeyId));
    }

    lemma NotOngoing(tx: string)
      requires Valid() && tx !in rss
      ensures !Ongoing(log, tx)
    {
    }

    lemma InStore(tx: string)
      requires Valid() && tx in rss
      ensures Backed(setup, log, tx, rss[tx])
    {
    }

    /** The first of the keys that is a loaded root and signed the server's own certificate. */
    method ChooseCi(pkids: seq<bytes>) returns (ciCert: Option<Cert>)
      ensures ciCert.Some? <==> setup.dpAuth.authKeyId in pkids && FirstWithKey(setup.ciCerts, setup.dpAuth.authKeyId).Some?
      ensures ciCert.Some? ==> ciCert == FirstWithKey(setup.ciCerts, setup.dpAuth.authKeyId)
    {
      ciCert := None;
      var i := 0;
      while i < |pkids|
        invariant 0 <= i <= |pkids| && ciCert == None
        invariant setup.dpAuth.authKeyId !in pkids[..i] || FirstWithKey(setup.ciCerts, setup.dpAuth.authKeyId).None?
      {
        ciCert := CiGetCertForPkid(setup.ciCerts, pkids[i]);
        if ciCert.Some? && ciCert.value.subjectKeyId == setup.dpAuth.authKeyId {
          return;
        }
        ciCert := None;
        i := i + 1;
      }
    }

    /**
     `authenticateClient`; `files` are the matching identifiers of the profiles that can be read, `smdpSignature` is
     the signature that signing gives this time.
     */
    method AuthenticateClient(tx: string, response: ServerResponse, files: set<string>, smdpSignature: bytes)
      returns (r: Reply<bytes>)
      requires Valid()
      requires response.Response? ==> setup.dpPbSigned(SmdpSigned(setup, tx, response.signature), smdpSignature)
      modifies this
      ensures Valid()
      ensures r.Success? <==>
              && response.Response? && tx in old(rss) && |response.signature| == 64
              && AuthChecks(setup, old(rss)[tx].serverChallenge, old(rss)[tx].ciCertId,
                            AsEvent(setup, tx, response, smdpSignature))
              && AsEvent(setup, tx, response, smdpSignature).matchingId in files
      ensures r.Success? ==>
              var id := setup.signed1(response.signed1).matchingId;
              && r.value == [0x5F, 0x37, 0x40] + smdpSignature && id.Some?
              && log == old(log) + [Authenticated(tx, response.euicc, response.eum, response.signed1, response.signature,
                                                  id.value, r.value)]
              && rss == old(rss)[tx := old(rss)[tx].(
                   euiccCert := Some(response.euicc), eumCert := Some(response.eum),
                   eid := Some(response.euicc.serialNumber), matchingId := id, smdpSignature2 := Some(r.value))]
      ensures !r.Success? ==> rss == old(rss) && log == old(log)
      ensures response.Response? && tx !in old(rss) <==> r == ApiError("8.10.1", "3.9")
      ensures r == ApiError("8.11.1", "3.9") <==>
              response.Response? && tx in old(rss) && response.eum.authKeyId != old(rss)[tx].ciCertId
      ensures r.ApiError? ==> r in {ApiError("8.10.1", "3.9"), ApiError("8.11.1", "3.9"), ApiError("8.1.3", "6.1"),
                                    ApiError("8.1", "6.1"), ApiError("8.1.4", "6.1"), ApiError("1.3.1", "2.2"),
                                    ApiError("8.2.6", "3.8")}
      ensures r.ApiError? ==> response.Response?
      ensures r.ApiError? && tx in old(rss) && response.Response? ==>
              var s, signed1 := old(rss)[tx], setup.signed1(response.signed1);
              && (r == ApiError("8.1.3", "6.1") ==> !Trusted(setup, s.ciCertId, response.eum, response.euicc))
              && (r == ApiError("8.1", "6.1") ==>
                    || !setup.verify(response.euicc, response.signature, response.signed1)
                    || signed1.serverChallenge != s.serverChallenge)
              && (r == ApiError("8.1.4", "6.1") ==> !setup.inRange(response.euicc.serialNumber, response.eum))
              && (r == ApiError("1.3.1", "2.2") ==> !signed1.common)
              && (r == ApiError("8.2.6", "3.8") ==>
                    || signed1.matchingId.None? || signed1.matchingId.value == "" || signed1.matchingId.value !in files)
    {
      hide Tied, Safe, Backed, Ongoing, Quiet, Trusted, SmdpSigned;
      assert (SIGNATURE_TAG + smdpSignature)[|SIGNATURE_TAG|..] == smdpSignature;
      if !response.Response? {
        return Raised;
      }
      if tx !in rss {
        return ApiError("8.10.1", "3.9");
      }
      var ss := rss[tx];
      ss := ss.(euiccCert := Some(response.euicc), eumCert := Some(response.eum));
      var certificates := CheckCertificates(setup, ss.ciCertId, response.eum, response.euicc);
      if !certificates.Success? {
        return if certificates.Raised? then Raised else ApiError(certificates.subject, certificates.reason);
      }
      var verified := EcdsaVerify(setup, response.euicc, response.signature, response.signed1);
      if verified != Success(true) {
        return if verified.Raised? then Raised else ApiError("8.1", "6.1");
      }
      ss := ss.(eid := Some(response.euicc.serialNumber));
      if !setup.inRange(response.euicc.serialNumber, response.eum) {
        return ApiError("8.1.4", "6.1");
      }
      var signed1 := setup.signed1(response.signed1);
      if signed1.serverChallenge != ss.serverChallenge {
        return ApiError("8.1", "6.1");
      }
      if !signed1.common {
        return ApiError("1.3.1", "2.2");
      }
      if signed1.matchingId.None? || signed1.matchingId.value == "" || signed1.matchingId.value !in files {
        return ApiError("8.2.6", "3.8");
      }
      var signature2 := SIGNATURE_TAG + smdpSignature;
      ss := ss.(matchingId := signed1.matchingId, smdpSignature2 := Some(signature2));
      ghost var e := AsEvent(setup, tx, response, smdpSignature);
      InStore(tx);
      AuthenticationBacks(setup, log, rss[tx], e, ss);
      Record(e, ss);
      rss := rss[tx := ss];
      r := Success(signature2);
    }

    /** Whether a package may be bound in this session, for this response. */
    predicate MayBind(tx: string, s: Session, response: DownloadResponse, files: set<string>) {
      && response.Downloading? && |response.signature2| == SIGNATURE_LENGTH
      && s.euiccCert.Some? && s.smdpSignature2.Some? && s.matchingId.Some?
      && setup.verify(s.euiccCert.value, response.signature2, response.signed2 + s.smdpSignature2.value)
      && setup.signed2(response.signed2).transactionId == setup.h2b(tx)
      && setup.onCurve(setup.signed2(response.signed2).otpk)
      && s.matchingId.value in files
    }

    /**
     `getBoundProfilePackage`; the answer stands for the package of the profile it names, and `encodes` says whether
     encoding it works, which is tried when the session has been stored already. A session without an authentication
     has no certificate to check the signature with, which raises an exception.
     */
    method GetBoundProfilePackage(tx: string, response: DownloadResponse, files: set<string>, encodes: bool)
      returns (r: Reply<string>)
      requires Valid()
      modifies this
      ensures Valid()
      ensures r.Success? <==>
              && tx in old(rss) && response.Downloading? && |response.signature2| == 64 && encodes
              && var s, signed2 := old(rss)[tx], setup.signed2(response.signed2);
                 && s.euiccCert.Some? && s.smdpSignature2.Some? && s.matchingId.Some? && s.matchingId.value in files
                 && setup.verify(s.euiccCert.value, response.signature2, response.signed2 + s.smdpSignature2.value)
                 && signed2.transactionId == setup.h2b(tx) && setup.onCurve(signed2.otpk)
      ensures r.Success? ==>
              var s := old(rss)[tx];
              && r.value == s.matchingId.value
              && log == old(log) + [Package(tx, s.euiccCert.value, response.signed2, response.signature2, r.value)]
      ensures !r.Success? ==> log == old(log)
      ensures rss == if tx in old(rss) && MayBind(tx, old(rss)[tx], response, files)
                     then old(rss)[tx := old(rss)[tx].(euiccOtpk := Some(setup.signed2(response.signed2).otpk))]
                     else old(rss)
      ensures tx !in old(rss) ==> r == ApiError("8.10.1", "3.9")
      ensures r.ApiError? ==> r in {ApiError("8.10.1", "3.9"), ApiError("8.1", "6.1")}
      ensures r.ApiError? && tx in old(rss) ==>
              var s := old(rss)[tx];
              && response.Downloading? && s.euiccCert.Some? && s.smdpSignature2.Some? && |response.signature2| == 64
              && (r == ApiError("8.1", "6.1") <==>
                    !setup.verify(s.euiccCert.value, response.signature2, response.signed2 + s.smdpSignature2.value))
              && (r == ApiError("8.10.1", "3.9") ==> setup.signed2(response.signed2).transactionId != setup.h2b(tx))
    {
      hide Tied, Safe, Backed, Ongoing, Quiet, AuthChecks;
      if tx !in rss {
        return ApiError("8.10.1", "3.9");
      }
      var ss := rss[tx];
      if !response.Downloading? {
        return Raised;
      }
      if ss.euiccCert.None? || ss.smdpSignature2.None? {
        return Raised;
      }
      var verified := EcdsaVerify(setup, ss.euiccCert.value, response.signature2,
                                  response.signed2 + ss.smdpSignature2.value);
      if verified != Success(true) {
        return if verified.Raised? then Raised else ApiError("8.1", "6.1");
      }
      var signed2 := setup.signed2(response.signed2);
      if setup.h2b(tx) != signed2.transactionId {
        return ApiError("8.10.1", "3.9");
      }
      ss := ss.(euiccOtpk := Some(signed2.otpk));
      if !setup.onCurve(signed2.otpk) {
        return Raised;
      }
      if ss.matchingId.None? || ss.matchingId.value !in files {
        return Raised;
      }
      if !encodes {
        KeyIsFree(setup, log, rss, tx, ss);
        rss := rss[tx := ss];
        return Raised;
      }
      ghost var p := Package(tx, ss.euiccCert.value, response.signed2, response.signature2, ss.matchingId.value);
      InStore(tx);
      PackageFollows(setup, log, rss[tx], ss, p);
      Record(p, ss);
      rss := rss[tx := ss];
      r := Success(ss.matchingId.value);
    }

    /** `cancelSession`; an error report from the client is answered with nothing. */
    method CancelSession(tx: string, response: CancelResponse) returns (r: Reply<bool>)
      requires Valid()
      modifies this
      ensures Valid()
      ensures r == Success(true) <==>
              && tx in old(rss) && response.Cancelling? && |response.signature| == 64
              && old(rss)[tx].euiccCert.Some?
              && setup.verify(old(rss)[tx].euiccCert.value, response.signature, response.signed)
              && setup.cancelSigned(response.signed) == CancelSigned(setup.h2b(tx), setup.dpAuthOid)
      ensures r == Success(true) ==>
              && log == old(log) + [Cancelled(tx, old(rss)[tx].euiccCert.value, response.signed, response.signature)]
              && rss == old(rss) - {tx}
      ensures r != Success(true) ==> rss == old(rss) && log == old(log)
      ensures r == Success(false) <==> tx in old(rss) && response.CancelError?
      ensures tx !in old(rss) ==> r == ApiError("8.10.1", "3.9")
      ensures r.ApiError? ==> r in {ApiError("8.10.1", "3.9"), ApiError("8.1", "6.1"), ApiError("8.8", "3.10")}
      ensures r.ApiError? && tx in old(rss) ==>
              && response.Cancelling? && old(rss)[tx].euiccCert.Some? && |response.signature| == 64
              && (r == ApiError("8.1", "6.1") <==>
                    !setup.verify(old(rss)[tx].euiccCert.value, response.signature, response.signed))
              && (r == ApiError("8.8", "3.10") ==> setup.cancelSigned(response.signed).smdpOid != setup.dpAuthOid)
              && (r == ApiError("8.10.1", "3.9") ==>
                    && setup.cancelSigned(response.signed).smdpOid == setup.dpAuthOid
                    && setup.cancelSigned(response.signed).transactionId != setup.h2b(tx))
    {
      hide Tied, Safe, Backed, Ongoing, Quiet, AuthChecks;
      if tx !in rss {
        return ApiError("8.10.1", "3.9");
      }
      var ss := rss[tx];
      match response {
        case CancelUndecodable =>
          r := Raised;
        case CancelError =>
          r := Success(false);
        case Cancelling(signed, signature) =>
          if ss.euiccCert.None? {
            return Raised;
          }
          var verified := EcdsaVerify(setup, ss.euiccCert.value, signature, signed);
          if verified != Success(true) {
            return if verified.Raised? then Raised else ApiError("8.1", "6.1");
          }
          var ecsr := setup.cancelSigned(signed);
          if ecsr.smdpOid != setup.dpAuthOid {
            return ApiError("8.8", "3.10");
          }
          if ecsr.transactionId != setup.h2b(tx) {
            return ApiError("8.10.1", "3.9");
          }
          ghost var c := Cancelled(tx, ss.euiccCert.value, signed, signature);
          InStore(tx);
          CancelFollows(setup, log, ss, c);
          TiedAfterEnd(setup, log, rss, c);
          SafeExtends(setup, log, c);
          log := log + [c];
          rss := rss - {tx};
          r := Success(true);
      }
    }

    /**
     `handleNotification`. The report of an installation ends the session whose key is the hex form of the
     transaction identifier in it; other notifications are only checked.
     */
    method HandleNotification(notification: Notification) returns (r: Reply<()>)
      requires Valid()
      modifies this
      ensures Valid()
      ensures match notification
              case Installation(result, signature) =>
                var tx := setup.b2h(setup.installed(result));
                if tx in old(rss) then
                  && (r.Success? <==>
                        && |signature| == 64 && old(rss)[tx].euiccCert.Some?
                        && setup.verify(old(rss)[tx].euiccCert.value, signature, result))
                  && (r.Success? ==>
                        && rss == old(rss) - {tx}
                        && log == old(log) + [Installed(tx, old(rss)[tx].euiccCert.value, result, signature)])
                  && (!r.Success? ==> rss == old(rss) && log == old(log))
                else r.Success? && rss == old(rss) && log == old(log)
              case OtherNotification(euicc, eum, metadata, signature) =>
                && rss == old(rss) && log == old(log)
                && (r.Success? <==>
                      && Trusted(setup, eum.authKeyId, eum, euicc)
                      && |signature| == 64 && setup.verify(euicc, signature, metadata))
              case NotificationUndecodable => r == Raised && rss == old(rss) && log == old(log)
      ensures !r.ApiError?
    {
      hide Tied, Safe, Backed, Ongoing, Quiet, AuthChecks, Trusted;
      match notification {
        case NotificationUndecodable =>
          r := Raised;
        case Installation(result, signature) =>
          var tx := setup.b2h(setup.installed(result));
          if tx !in rss {
            return Success(());
          }
          var ss := rss[tx];
          if ss.euiccCert.None? {
            return Raised;
          }
          if EcdsaVerify(setup, ss.euiccCert.value, signature, result) != Success(true) {
            return Raised;
          }
          ghost var e := Installed(tx, ss.euiccCert.value, result, signature);
          InStore(tx);
          InstallFollows(setup, log, ss, e);
          TiedAfterEnd(setup, log, rss, e);
          SafeExtends(setup, log, e);
          log := log + [e];
          rss := rss - {tx};
          r := Success(());
        case OtherNotification(euicc, eum, metadata, signature) =>
          var certificates := CheckCertificates(setup, eum.authKeyId, eum, euicc);
          var verified := EcdsaVerify(setup, euicc, signature, metadata);
          r := if certificates.Success? && verified == Success(true) then Success(()) else Raised;
      }
    }

    /** The signature that comes with a request is one the server's signing may give for it. */
    predicate SignedAsGiven(request: Request) {
      request.Authenticate? && request.response.Response? ==>
        setup.dpPbSigned(SmdpSigned(setup, request.tx, request.response.signature), request.smdpSignature)
    }

    /** Any run: whatever the clients send, in whatever order, the log grows and stays safe. */
    method Serve(requests: seq<Request>)
      requires Valid()
      requires forall i :: 0 <= i < |requests| ==> SignedAsGiven(requests[i])
      modifies this
      ensures Valid() && Safe(setup, log) && old(log) <= log
    {
      for i := 0 to |requests|
        invariant Valid() && old(log) <= log
      {
        assert SignedAsGiven(requests[i]);
        match requests[i]
        case Initiate(address, challenge, forSigning, forVerification, tx, serverChallenge) =>
          var _ := InitiateAuthentication(address, challenge, forSigning, forVerification, tx, serverChallenge);
        case Authenticate(tx, response, files, smdpSignature) =>
          var _ := AuthenticateClient(tx, response, files, smdpSignature);
        case GetPackage(tx, response, files, encodes) =>
          var _ := GetBoundProfilePackage(tx, response, files, encodes);
        case Cancel(tx, response) =>
          var _ := CancelSession(tx, response);
        case Notify(notification) =>
          var _ := HandleNotification(notification);
      }
    }
  }
}
