/**
 What the SM-DP+ does for its clients over a run, as a log, and when such a log is safe: every bound profile package
 and every end of a session goes back to an authentication and an issue of its transaction. Cryptography and encodings
 are parameters.
 */
module SessionLog {
  import opened Bytes
  import opened Certificates
  import opened Wrappers

  /** `euiccSigned1`, as far as it is looked at. */
  datatype Signed1 = Signed1(serverChallenge: bytes, common: bool, matchingId: Option<string>)

  /** `euiccSigned2`. */
  datatype Signed2 = Signed2(transactionId: bytes, otpk: bytes)

  /** `euiccCancelSessionSigned`. */
  datatype CancelSigned = CancelSigned(transactionId: bytes, smdpOid: string)

  /** The server's certificates and the functions it takes from libraries. */
  datatype Setup = Setup(
    hostname: string,
    ciCerts: seq<Cert>,
    dpAuth: Cert,
    dpAuthOid: string,
    signed: (Cert, Cert) -> bool,
    /** Whether the signature over the data is by the key of the certificate. */
    verify: (Cert, bytes, bytes) -> bool,
    /** Whether the second is a signature over the first with the key of the profile package binding certificate. */
    dpPbSigned: (bytes, bytes) -> bool,
    signed1: bytes -> Signed1,
    signed2: bytes -> Signed2,
    cancelSigned: bytes -> CancelSigned,
    smdpSigned2: bytes -> bytes,
    /** The transaction identifier in the result of a profile installation. */
    installed: bytes -> bytes,
    h2b: string -> bytes,
    b2h: bytes -> string,
    /** `validate_eid_range`. */
    inRange: (string, Cert) -> bool,
    /** Whether a public key is a point of the curve. */
    onCurve: bytes -> bool)

  datatype Event =
    /** `initiateAuthentication` answered with a transaction and a challenge. */
    | Issued(tx: string, challenge: bytes, ciCertId: bytes)
    /** `authenticateClient` answered with a signature. */
    | Authenticated(tx: string, euicc: Cert, eum: Cert, signed1: bytes, signature: bytes, matchingId: string,
                    smdpSignature2: bytes)
    /** `getBoundProfilePackage` answered with the package of a profile. */
    | Package(tx: string, signedBy: Cert, signed2: bytes, signature2: bytes, profile: string)
    /** `cancelSession` ended the session. */
    | Cancelled(tx: string, cancelledBy: Cert, cancelSigned: bytes, cancelSignature: bytes)
    /** `handleNotification` ended the session on the report of an installation. */
    | Installed(tx: string, reportedBy: Cert, result: bytes, resultSignature: bytes)
  {
    predicate Ends() {
      Cancelled? || Installed?
    }
  }

  const SIGNATURE_TAG: bytes := [0x5F, 0x37, 0x40]

  /** What `smdpSignature2` is over: the server's own data and the client's signature. */
  function SmdpSigned(setup: Setup, tx: string, euiccSignature1: bytes): bytes {
    setup.smdpSigned2(setup.h2b(tx)) + SIGNATURE_TAG + euiccSignature1
  }

  /** The certificates of the client are good for the root of this key. */
  predicate Trusted(setup: Setup, ciCertId: bytes, eum: Cert, euicc: Cert) {
    && FirstWithKey(setup.ciCerts, ciCertId).Some?
    && var root := FirstWithKey(setup.ciCerts, ciCertId).value;
    && UsableRoot(setup.signed, root)
    && eum.authKeyId == ciCertId && eum.signsCerts && eum.authKeyId != eum.subjectKeyId
    && SignedThrough(setup.signed, root, eum, euicc)
  }

  /** What an authentication must have shown, given the challenge and the root it was to use. */
  predicate AuthChecks(setup: Setup, challenge: bytes, ciCertId: bytes, a: Event)
    requires a.Authenticated?
  {
    && Trusted(setup, ciCertId, a.eum, a.euicc)
    && setup.verify(a.euicc, a.signature, a.signed1)
    && setup.inRange(a.euicc.serialNumber, a.eum)
    && setup.signed1(a.signed1).serverChallenge == challenge
    && setup.signed1(a.signed1).common && setup.signed1(a.signed1).matchingId == Some(a.matchingId)
    && a.matchingId != ""
    && SIGNATURE_TAG <= a.smdpSignature2
    && setup.dpPbSigned(SmdpSigned(setup, a.tx, a.signature), a.smdpSignature2[|SIGNATURE_TAG|..])
  }

  /** What a package must be, given the authentication it goes back to. */
  predicate PackageChecks(setup: Setup, a: Event, p: Event)
    requires a.Authenticated? && p.Package?
  {
    && p.tx == a.tx && p.signedBy == a.euicc && p.profile == a.matchingId
    && setup.verify(a.euicc, p.signature2, p.signed2 + a.smdpSignature2)
    && setup.signed2(p.signed2).transactionId == setup.h2b(p.tx)
  }

  predicate CancelChecks(setup: Setup, a: Event, c: Event)
    requires a.Authenticated? && c.Cancelled?
  {
    && c.tx == a.tx && c.cancelledBy == a.euicc
    && setup.verify(a.euicc, c.cancelSignature, c.cancelSigned)
    && setup.cancelSigned(c.cancelSigned).transactionId == setup.h2b(c.tx)
    && setup.cancelSigned(c.cancelSigned).smdpOid == setup.dpAuthOid
  }

  predicate InstallChecks(setup: Setup, a: Event, e: Event)
    requires a.Authenticated? && e.Installed?
  {
    && e.tx == a.tx && e.reportedBy == a.euicc
    && setup.verify(a.euicc, e.resultSignature, e.result)
    && setup.b2h(setup.installed(e.result)) == e.tx
  }

  /** The client's chain in terms of signatures: to the first loaded root with the key, through the one certificate above. */
  lemma {:induction false} TrustedMeans(setup: Setup, ciCertId: bytes, eum: Cert, euicc: Cert)
    ensures Trusted(setup, ciCertId, eum, euicc) <==>
            exists i :: 0 <= i < |setup.ciCerts| && IsFirst(setup.ciCerts, ciCertId, i)
              && var root := setup.ciCerts[i];
                 && setup.signed(root, root) && root.ciPolicy && root.signsCerts && root.signsCrls
                 && eum.signsCerts && eum.authKeyId == ciCertId != eum.subjectKeyId
                 && (if euicc.authKeyId == ciCertId then setup.signed(euicc, root)
                     else euicc.authKeyId == eum.subjectKeyId && setup.signed(euicc, eum) && setup.signed(eum, root))
  {
    forall i: nat, j: nat | IsFirst(setup.ciCerts, ciCertId, i) && IsFirst(setup.ciCerts, ciCertId, j)
      ensures i <= j
    {
    }
  }

  /** What the server vouches for when it answers an authentication. */
  lemma {:induction false} AuthenticationMeans(setup: Setup, challenge: bytes, ciCertId: bytes, a: Event)
    requires a.Authenticated?
    ensures AuthChecks(setup, challenge, ciCertId, a) <==>
            && Trusted(setup, ciCertId, a.eum, a.euicc)
            && setup.verify(a.euicc, a.signature, a.signed1) && setup.inRange(a.euicc.serialNumber, a.eum)
            && (exists id :: id != "" && a.matchingId == id && setup.signed1(a.signed1) == Signed1(challenge, true, Some(id)))
            && exists signature :: a.smdpSignature2 == [0x5F, 0x37, 0x40] + signature
                 && setup.dpPbSigned(setup.smdpSigned2(setup.h2b(a.tx)) + [0x5F, 0x37, 0x40] + a.signature, signature)
  {
    hide Trusted;
    if AuthChecks(setup, challenge, ciCertId, a) {
      assert a.smdpSignature2 == [0x5F, 0x37, 0x40] + a.smdpSignature2[3..];
    }
  }

  /** What ties a package and the two ends of a session to the authentication they go back to. */
  lemma {:induction false} ChecksMean(setup: Setup, a: Event, e: Event)
    requires a.Authenticated?
    ensures e.Package? ==>
              (PackageChecks(setup, a, e) <==>
                 && e.tx == a.tx && e.signedBy == a.euicc && e.profile == a.matchingId
                 && setup.verify(e.signedBy, e.signature2, e.signed2 + a.smdpSignature2)
                 && setup.signed2(e.signed2) == Signed2(setup.h2b(a.tx), setup.signed2(e.signed2).otpk))
    ensures e.Cancelled? ==>
              (CancelChecks(setup, a, e) <==>
                 && e.tx == a.tx && e.cancelledBy == a.euicc
                 && setup.verify(e.cancelledBy, e.cancelSignature, e.cancelSigned)
                 && setup.cancelSigned(e.cancelSigned) == CancelSigned(setup.h2b(a.tx), setup.dpAuthOid))
    ensures e.Installed? ==>
              (InstallChecks(setup, a, e) <==>
                 && a.tx == e.tx == setup.b2h(setup.installed(e.result)) && e.reportedBy == a.euicc
                 && setup.verify(e.reportedBy, e.resultSignature, e.result))
  {
  }

  /** Since event `i` the transaction was neither issued again nor ended, nor, unless `orAuth`, authenticated. */
  predicate Quiet(log: seq<Event>, i: nat, tx: string, orAuth: bool) {
    forall m :: i < m < |log| && log[m].tx == tx ==> log[m].Package? || (orAuth && log[m].Authenticated?)
  }

  /** Event `j` issued the transaction, which has been going on since. */
  predicate OpenSince(log: seq<Event>, j: nat, tx: string) {
    j < |log| && log[j].Issued? && log[j].tx == tx && Quiet(log, j, tx, true)
  }

  /** Event `k` is the last authentication of its transaction, and it passed all checks of the issue `j`. */
  predicate AuthenticSince(setup: Setup, log: seq<Event>, j: nat, k: nat, tx: string) {
    && OpenSince(log, j, tx) && j < k < |log|
    && log[k].Authenticated? && log[k].tx == tx && Quiet(log, k, tx, false)
    && AuthChecks(setup, log[j].challenge, log[j].ciCertId, log[k])
  }

  /** The transaction is going on. */
  ghost predicate Ongoing(log: seq<Event>, tx: string) {
    exists j: nat :: OpenSince(log, j, tx)
  }

  /** Whether `e` may follow the log. */
  ghost predicate MayFollow(setup: Setup, log: seq<Event>, e: Event) {
    match e
    case Issued(tx, challenge, ciCertId) =>
      && !Ongoing(log, tx)
      && ciCertId == setup.dpAuth.authKeyId && FirstWithKey(setup.ciCerts, ciCertId).Some?
    case Authenticated(tx, _, _, _, _, _, _) =>
      exists j: nat :: OpenSince(log, j, tx) && AuthChecks(setup, log[j].challenge, log[j].ciCertId, e)
    case Package(tx, _, _, _, _) =>
      exists j: nat, k: nat :: AuthenticSince(setup, log, j, k, tx) && PackageChecks(setup, log[k], e)
    case Cancelled(tx, _, _, _) =>
      exists j: nat, k: nat :: AuthenticSince(setup, log, j, k, tx) && CancelChecks(setup, log[k], e)
    case Installed(tx, _, _, _) =>
      exists j: nat, k: nat :: AuthenticSince(setup, log, j, k, tx) && InstallChecks(setup, log[k], e)
  }

  ghost predicate Safe(setup: Setup, log: seq<Event>) {
    forall i :: 0 <= i < |log| ==> MayFollow(setup, log[..i], log[i])
  }

  lemma SafeExtends(setup: Setup, log: seq<Event>, e: Event)
    requires Safe(setup, log) && MayFollow(setup, log, e)
    ensures Safe(setup, log + [e])
  {
    forall i | 0 <= i < |log + [e]| ensures MayFollow(setup, (log + [e])[..i], (log + [e])[i]) {
      if i < |log| {
        assert (log + [e])[..i] == log[..i];
        assert MayFollow(setup, log[..i], log[i]);
      } else {
        assert (log + [e])[..i] == log;
      }
    }
  }

  /**
   The requirement in one place: a package in a safe log comes after an issue of its transaction and an
   authentication that passed the checks of that issue, was the last one, and whose certificate signed for it;
   in between the transaction was not cancelled, nor its profile reported as installed.
   */
  lemma {:induction false} PackageIsAccountedFor(setup: Setup, log: seq<Event>, i: nat) returns (j: nat, k: nat)
    requires Safe(setup, log) && i < |log| && log[i].Package?
    ensures j < k < i
    ensures log[j].Issued? && log[j].tx == log[i].tx
    ensures log[k].Authenticated? && log[k].tx == log[i].tx
    ensures AuthChecks(setup, log[j].challenge, log[j].ciCertId, log[k]) && PackageChecks(setup, log[k], log[i])
    ensures log[j].ciCertId == setup.dpAuth.authKeyId
    ensures setup.verify(log[k].euicc, log[k].signature, log[k].signed1)
    ensures setup.signed1(log[k].signed1) == Signed1(log[j].challenge, true, Some(log[i].profile))
    ensures log[i].signedBy == log[k].euicc
    ensures setup.verify(log[i].signedBy, log[i].signature2, log[i].signed2 + log[k].smdpSignature2)
    ensures forall m :: j < m < i && log[m].tx == log[i].tx ==> !log[m].Ends() && !log[m].Issued?
    ensures forall m :: k < m < i && log[m].tx == log[i].tx ==> !log[m].Authenticated?
  {
    hide AuthChecks, PackageChecks;
    var before := log[..i];
    assert MayFollow(setup, before, log[i]);
    j, k :| AuthenticSince(setup, before, j, k, log[i].tx) && PackageChecks(setup, before[k], log[i]);
    AuthenticationMeans(setup, log[j].challenge, log[j].ciCertId, log[k]);
    ChecksMean(setup, log[k], log[i]);
    assert MayFollow(setup, log[..j], log[j]);
    forall m | j < m < i && log[m].tx == log[i].tx
      ensures !log[m].Ends() && !log[m].Issued? && (k < m ==> !log[m].Authenticated?)
    {
      assert before[m] == log[m];
    }
  }

  /** After the end of a session no package follows unless the transaction is issued anew. */
  lemma {:induction false} NothingAfterEnd(setup: Setup, log: seq<Event>, c: nat, i: nat) returns (j: nat)
    requires Safe(setup, log) && c < i < |log| && log[c].Ends() && log[i].Package? && log[c].tx == log[i].tx
    ensures c < j < i && log[j].Issued? && log[j].tx == log[i].tx
  {
    hide Safe, AuthChecks, PackageChecks;
    var k;
    j, k := PackageIsAccountedFor(setup, log, i);
  }

  /** One session at a time: between two issues of a transaction its session ended. */
  lemma {:induction false} ReissueNeedsEnd(setup: Setup, log: seq<Event>, a: nat, b: nat) returns (c: nat)
    requires Safe(setup, log) && a < b < |log| && log[a].Issued? && log[b].Issued? && log[a].tx == log[b].tx
    ensures a < c < b && log[c].Ends() && log[c].tx == log[a].tx
    decreases b - a
  {
    var before := log[..b];
    assert MayFollow(setup, before, log[b]);
    assert !OpenSince(before, a, log[a].tx);
    c :| a < c < |before| && before[c].tx == log[a].tx && !before[c].Package? && !before[c].Authenticated?;
    if log[c].Issued? {
      c := ReissueNeedsEnd(setup, log, a, c);
    }
  }
}
