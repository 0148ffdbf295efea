/**
 Certificates and chains of them up to a root (pysim/pySim/esim/x509_cert.py). Whether one certificate was signed
 with the key of another is a parameter.
 */
module Certificates {
  import opened Bytes
  import opened Wrappers

  /** A certificate, by what the chain is checked on, and the rest of its encoding. */
  datatype Cert = Cert(
    subjectKeyId: bytes,
    authKeyId: bytes,
    ciPolicy: bool,
    signsCerts: bool,
    signsCrls: bool,
    serialNumber: string,
    der: bytes)

  /** Whether the first certificate was signed with the key of the second. */
  type Signed = (Cert, Cert) -> bool

  /** How a chain check ends: passed, `VerifyError`, or the exception of a wrong signature. */
  datatype Verdict = Passed | NoChain | BadSignature

  const MAX_DEPTH: nat := 100

  /** What the constructor of a certificate set demands of a root. */
  predicate UsableRoot(signed: Signed, root: Cert) {
    signed(root, root) && root.ciPolicy && root.signsCerts && root.signsCrls
  }

  /** The check from `c` on, with `depth` certificates to go. */
  function Chain(signed: Signed, root: Cert, intermediates: map<bytes, Cert>, c: Cert, depth: nat): Verdict
    decreases depth
  {
    if depth == 0 then NoChain
    else if c.authKeyId == root.subjectKeyId then (if signed(c, root) then Passed else BadSignature)
    else if c.authKeyId !in intermediates then NoChain
    else if !signed(c, intermediates[c.authKeyId]) then BadSignature
    else Chain(signed, root, intermediates, intermediates[c.authKeyId], depth - 1)
  }

  /** A root with the certificates between it and others. */
  class CertificateSet {
    const root: Cert
    var intermediates: map<bytes, Cert>

    constructor (root: Cert)
      ensures this.root == root && intermediates == map[]
    {
      this.root, intermediates := root, map[];
    }

    /**
     `CertificateSet(root)`, or null for its exceptions: a root must have signed itself, carry the policy of a root, and be
     allowed to sign certificates and revocation lists.
     */
    static method ForRoot(signed: Signed, root: Cert) returns (cs: CertificateSet?)
      ensures cs != null <==> signed(root, root) && root.ciPolicy && root.signsCerts && root.signsCrls
      ensures cs != null <==> UsableRoot(signed, root)
      ensures cs != null ==> fresh(cs) && cs.root == root && cs.intermediates == map[]
    {
      if !signed(root, root) {
        return null;
      }
      if !root.ciPolicy {
        return null;
      }
      if !root.signsCerts {
        return null;
      }
      if !root.signsCrls {
        return null;
      }
      cs := new CertificateSet(root);
    }

    /** Refuses a certificate that may not sign others, or that names itself as its signer. */
    method AddIntermediate(cert: Cert) returns (ok: bool)
      modifies this
      ensures ok <==> cert.signsCerts && cert.authKeyId != cert.subjectKeyId
      ensures intermediates == if ok then old(intermediates)[cert.subjectKeyId := cert] else old(intermediates)
    {
      ok := cert.signsCerts && cert.authKeyId != cert.subjectKeyId;
      if ok {
        intermediates := intermediates[cert.subjectKeyId := cert];
      }
    }

    method VerifyCertChain(signed: Signed, cert: Cert) returns (v: Verdict)
      ensures v == Chain(signed, root, intermediates, cert, 100)
    {
      var depth: nat, c := 1, cert;
      while depth <= MAX_DEPTH
        invariant 1 <= depth <= MAX_DEPTH + 1
        invariant Chain(signed, root, intermediates, c, MAX_DEPTH + 1 - depth) ==
                  Chain(signed, root, intermediates, cert, MAX_DEPTH)
      {
        var aki := c.authKeyId;
        if aki == root.subjectKeyId {
          return if signed(c, root) then Passed else BadSignature;
        }
        if aki !in intermediates {
          return NoChain;
        }
        var parent := intermediates[aki];
        if !signed(c, parent) {
          return BadSignature;
        }
        c, depth := parent, depth + 1;
      }
      v := NoChain;
    }
  }

  /** A check that passes has found a path of signatures to the root, through certificates of the set. */
  lemma {:induction false} PassedHasPath(signed: Signed, root: Cert, intermediates: map<bytes, Cert>, c: Cert,
                                         depth: nat) returns (path: seq<Cert>)
    requires Chain(signed, root, intermediates, c, depth) == Passed
    ensures 1 <= |path| <= depth && path[0] == c
    ensures forall i :: 0 <= i < |path| - 1 ==>
              && path[i].authKeyId in intermediates && path[i + 1] == intermediates[path[i].authKeyId]
              && signed(path[i], path[i + 1])
    ensures path[|path| - 1].authKeyId == root.subjectKeyId && signed(path[|path| - 1], root)
    decreases depth
  {
    if c.authKeyId == root.subjectKeyId {
      path := [c];
    } else {
      var rest := PassedHasPath(signed, root, intermediates, intermediates[c.authKeyId], depth - 1);
      path := [c] + rest;
    }
  }

  /** The next certificate up, if the one at hand is not from the root. */
  predicate Climbs(root: Cert, intermediates: map<bytes, Cert>, path: seq<Cert>) {
    forall i :: 0 <= i < |path| - 1 ==>
        && path[i].authKeyId != root.subjectKeyId
        && path[i].authKeyId in intermediates && path[i + 1] == intermediates[path[i].authKeyId]
  }

  /**
   The other way round: the check of the first certificate of a path that climbs through the set, all of its signatures
   right, passes if the last one is from the root; it ends with a wrong signature if the last one's signature is wrong,
   and finds no chain if the last one's signer is unknown, or the path is as long as the limit and does not end.
   */
  lemma {:induction false} PathDecides(signed: Signed, root: Cert, intermediates: map<bytes, Cert>, path: seq<Cert>,
                                       depth: nat)
    requires path != [] && |path| <= depth && Climbs(root, intermediates, path)
    requires forall i :: 0 <= i < |path| - 1 ==> signed(path[i], path[i + 1])
    ensures var last := path[|path| - 1];
            var verdict := Chain(signed, root, intermediates, path[0], depth);
            && (last.authKeyId == root.subjectKeyId ==> verdict == if signed(last, root) then Passed else BadSignature)
            && (last.authKeyId != root.subjectKeyId && last.authKeyId !in intermediates ==> verdict == NoChain)
            && (last.authKeyId != root.subjectKeyId && last.authKeyId in intermediates ==>
                  && (!signed(last, intermediates[last.authKeyId]) ==> verdict == BadSignature)
                  && (signed(last, intermediates[last.authKeyId]) && |path| == depth ==> verdict == NoChain))
    decreases depth
  {
    if |path| > 1 {
      assert path[1] == intermediates[path[0].authKeyId] && signed(path[0], path[1]);
      PathDecides(signed, root, intermediates, path[1..], depth - 1);
    }
  }

  /** The chain of an eUICC certificate through the one intermediate certificate, or directly to the root. */
  predicate SignedThrough(signed: Signed, root: Cert, eum: Cert, cert: Cert) {
    if cert.authKeyId == root.subjectKeyId then signed(cert, root)
    else cert.authKeyId == eum.subjectKeyId && signed(cert, eum) && signed(eum, root)
  }

  /** With a single intermediate certificate, of the root's key, the loop checks just these signatures. */
  lemma {:induction false} OneIntermediate(signed: Signed, root: Cert, eum: Cert, cert: Cert)
    requires eum.authKeyId == root.subjectKeyId
    ensures Chain(signed, root, map[eum.subjectKeyId := eum], cert, MAX_DEPTH) == Passed <==>
            SignedThrough(signed, root, eum, cert)
  {
    var set1 := map[eum.subjectKeyId := eum];
    assert Chain(signed, root, set1, eum, MAX_DEPTH - 1) == if signed(eum, root) then Passed else BadSignature;
  }

  /** The certificate at `i` has the key, and none before it. */
  predicate IsFirst(certs: seq<Cert>, keyId: bytes, i: nat) {
    i < |certs| && certs[i].subjectKeyId == keyId && forall j :: 0 <= j < i ==> certs[j].subjectKeyId != keyId
  }

  /** The first of the certificates with this key (`ci_get_cert_for_pkid`, pysim/osmo-smdpp.py). */
  function FirstWithKey(certs: seq<Cert>, keyId: bytes): (r: Option<Cert>)
    ensures r.Some? ==> r.value in certs && r.value.subjectKeyId == keyId
    ensures r.Some? ==> exists i :: 0 <= i < |certs| && IsFirst(certs, keyId, i) && r.value == certs[i]
    ensures r.None? ==> forall c :: c in certs ==> c.subjectKeyId != keyId
  {
    if certs == [] then None
    else if certs[0].subjectKeyId == keyId then assert IsFirst(certs, keyId, 0); Some(certs[0])
    else
      var r := FirstWithKey(certs[1..], keyId);
      assert r.Some? ==> exists i :: 0 <= i < |certs| && IsFirst(certs, keyId, i) && r.value == certs[i] by {
        if i :| r.Some? && 0 <= i < |certs[1..]| && IsFirst(certs[1..], keyId, i) && r.value == certs[1..][i] {
          assert IsFirst(certs, keyId, i + 1);
        }
      }
      r
  }

  method CiGetCertForPkid(certs: seq<Cert>, keyId: bytes) returns (r: Option<Cert>)
    ensures r == FirstWithKey(certs, keyId)
  {
    var i := 0;
    while i < |certs|
      invariant 0 <= i <= |certs|
      invariant FirstWithKey(certs, keyId) == FirstWithKey(certs[i..], keyId)
    {
      if certs[i].subjectKeyId == keyId {
        return Some(certs[i]);
      }
      i := i + 1;
    }
    r := None;
  }
}
