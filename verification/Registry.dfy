/**
 * Devices, certificates, trusted authorities and tombstones: what every request may do to them.
 * Requests are queued, so a run is a sequence of registries. Most requests load, change and save the
 * registry as a whole; where one saves several times, each saved registry is one it may leave behind.
 */
module Registry {
  import opened Outcomes

  type Fingerprint = nat

  datatype DeviceStatus = Active | Archived
  datatype Device = Device(id: string, enabled: bool, trusted: bool, status: DeviceStatus, deleteAt: Option<int>)

  /** A certificate record: waiting for an external signature, that wait over, or issued. */
  datatype CertStatus = PendingSignature | SignatureCompleted | Live | Blocked | Revoked
  datatype Issuer = Local | Legacy | External

  datatype Certificate = Certificate(
    id: nat, deviceId: string, status: CertStatus, issuer: Issuer,
    fingerprint: Option<Fingerprint>,        // none while there is only a request
    issuerFingerprint: Option<Fingerprint>,  // recorded for imported certificates
    brokerTrusted: bool, validTo: int,
    archivedWithIdentity: bool,              // blockReason is identity-archived
    keyReceived: bool, licenseArchived: bool, licenseDeleted: bool)

  datatype Tombstone = Tombstone(id: string, fingerprints: seq<Fingerprint>)
  datatype Authority = Authority(id: nat, fingerprint: Fingerprint)

  datatype Db = Db(devices: seq<Device>, certificates: seq<Certificate>,
                   tombstones: seq<Tombstone>, trustedCas: seq<Authority>)

  // ----- what a registry says

  ghost predicate HasDevice(db: Db, id: string) {
    exists d :: d in db.devices && d.id == id
  }

  ghost predicate Deleted(db: Db, id: string) {
    exists t :: t in db.tombstones && t.id == id
  }

  ghost predicate Registered(db: Db, f: Fingerprint) {
    exists c :: c in db.certificates && c.fingerprint == Some(f)
  }

  ghost predicate Buried(db: Db, f: Fingerprint) {
    exists t :: t in db.tombstones && f in t.fingerprints
  }

  /** The certificate was issued or imported at some time. */
  ghost predicate Known(db: Db, f: Fingerprint) {
    Registered(db, f) || Buried(db, f)
  }

  ghost predicate IsLive(db: Db, f: Fingerprint) {
    exists c :: c in db.certificates && c.fingerprint == Some(f) && c.status.Live?
  }

  ghost predicate Among(authorities: seq<Authority>, f: Fingerprint) {
    exists a :: a in authorities && a.fingerprint == f
  }

  ghost predicate TrustedAuthority(db: Db, f: Fingerprint) {
    Among(db.trustedCas, f)
  }

  /** The device is enabled and approved: the part of the ACL decision that requests control. */
  ghost predicate Granted(db: Db, id: string) {
    exists d :: d in db.devices && d.id == id && d.enabled && d.trusted && d.status.Active?
  }

  // ----- the invariant of one registry

  predicate IssuerKnown(c: Certificate) {
    c.issuer.External? && c.fingerprint.Some? ==> c.issuerFingerprint.Some?
  }

  /** An imported certificate of the authority with the fingerprint `f`. */
  predicate ImportedFrom(c: Certificate, f: Fingerprint) {
    c.issuer.External? && c.fingerprint.Some? && c.issuerFingerprint == Some(f)
  }

  /** The certificates imported from one authority carry its trust. */
  ghost predicate AgreesOn(db: Db, f: Fingerprint) {
    forall c | c in db.certificates && ImportedFrom(c, f) :: c.brokerTrusted <==> TrustedAuthority(db, f)
  }

  ghost predicate TrustAgrees(db: Db, c: Certificate) {
    IssuerKnown(c) && forall f: Fingerprint | ImportedFrom(c, f) :: c.brokerTrusted <==> TrustedAuthority(db, f)
  }

  /** Only what has been issued is live, and only what has not been issued waits for a signature. */
  predicate StatusOk(c: Certificate) {
    (c.status.Live? ==> c.fingerprint.Some?) && (c.status.PendingSignature? ==> c.fingerprint.None?)
  }

  ghost predicate DistinctFingerprints(certificates: seq<Certificate>) {
    forall i, j | 0 <= i < j < |certificates| && certificates[i].fingerprint.Some? ::
      certificates[i].fingerprint != certificates[j].fingerprint
  }

  ghost predicate Sound(db: Db) {
    && (forall i, j | 0 <= i < j < |db.devices| :: db.devices[i].id != db.devices[j].id)
    && (forall d | d in db.devices :: !Deleted(db, d.id))
    && (forall i, j | 0 <= i < j < |db.tombstones| :: db.tombstones[i].id != db.tombstones[j].id)
    && DistinctFingerprints(db.certificates)
    && (forall c | c in db.certificates && c.fingerprint.Some? :: !Buried(db, c.fingerprint.value))
    && (forall c | c in db.certificates :: HasDevice(db, c.deviceId))
    && (forall c | c in db.certificates :: IssuerKnown(c))
    && (forall c | c in db.certificates :: StatusOk(c))
    && (forall i, j | 0 <= i < j < |db.trustedCas| ::
          db.trustedCas[i].id != db.trustedCas[j].id && db.trustedCas[i].fingerprint != db.trustedCas[j].fingerprint)
  }

  /** Sound, and every imported certificate carries the trust of its authority. */
  ghost predicate Valid(db: Db) {
    Sound(db) && forall f: Fingerprint :: AgreesOn(db, f)
  }

  // ----- what no request may undo

  ghost predicate Evolves(a: Db, b: Db) {
    && (forall id | Deleted(a, id) :: Deleted(b, id))
    && (forall f | Known(a, f) :: Known(b, f))
    && (forall f | Buried(a, f) :: Buried(b, f))
    && (forall f | Known(a, f) && IsLive(b, f) :: IsLive(a, f))
  }

  /** Nobody but `except` gains access. */
  ghost predicate KeepsBlocked(a: Db, b: Db, except: Option<string>) {
    forall id | Granted(b, id) && except != Some(id) :: Granted(a, id)
  }

  /** What agrees with its authority keeps agreeing, the one in `torn` excepted. */
  ghost predicate KeepsAgreement(a: Db, b: Db, torn: Option<Fingerprint>) {
    forall f: Fingerprint | AgreesOn(a, f) && torn != Some(f) :: AgreesOn(b, f)
  }

  /** What every request does, even one that raises between two saves. */
  ghost predicate StepOk(a: Db, b: Db, grants: Option<string>, torn: Option<Fingerprint>) {
    Sound(a) ==> Sound(b) && Evolves(a, b) && KeepsBlocked(a, b, grants) && KeepsAgreement(a, b, torn)
  }

  ghost predicate RequestOk(a: Db, b: Db, grants: Option<string>) {
    StepOk(a, b, grants, None)
  }

  lemma RequestsCompose(a: Db, b: Db, c: Db, grants: Option<string>)
    requires RequestOk(a, b, grants) && RequestOk(b, c, grants)
    ensures RequestOk(a, c, grants)
  {
  }

  // ----- runs

  /**
   * Successive registries; `grants[i]` is the identity the i-th request enables, if any, and
   * `torn[i]` the authority it leaves trusted without its certificates, if any.
   */
  ghost predicate Run(dbs: seq<Db>, grants: seq<Option<string>>, torn: seq<Option<Fingerprint>>) {
    && |dbs| == |grants| + 1 == |torn| + 1
    && Sound(dbs[0])
    && forall i | 0 <= i < |grants| :: StepOk(dbs[i], dbs[i + 1], grants[i], torn[i])
  }

  lemma {:induction false} RunIsSound(dbs: seq<Db>, grants: seq<Option<string>>, torn: seq<Option<Fingerprint>>, n: nat)
    requires Run(dbs, grants, torn) && n < |dbs|
    ensures Sound(dbs[n])
  {
    if n > 0 {
      RunIsSound(dbs, grants, torn, n - 1);
      assert StepOk(dbs[n - 1], dbs[n], grants[n - 1], torn[n - 1]);
    }
  }

  /** Certificates that carry the trust of their authority do so until a request tears on that authority. */
  lemma {:induction false} AgreesUntilTorn(dbs: seq<Db>, grants: seq<Option<string>>, torn: seq<Option<Fingerprint>>,
                                           i: nat, j: nat, f: Fingerprint)
    requires Run(dbs, grants, torn) && i <= j < |dbs|
    requires AgreesOn(dbs[i], f)
    requires forall k | i <= k < j :: torn[k] != Some(f)
    ensures AgreesOn(dbs[j], f)
  {
    if i < j {
      AgreesUntilTorn(dbs, grants, torn, i, j - 1, f);
      RunIsSound(dbs, grants, torn, j - 1);
      assert StepOk(dbs[j - 1], dbs[j], grants[j - 1], torn[j - 1]);
    }
  }

  lemma EvolvesOn(a: Db, b: Db, c: Db)
    requires Evolves(a, b) && Evolves(b, c)
    ensures Evolves(a, c)
  {
  }

  lemma DeletedIsGone(db: Db)
    requires Sound(db)
    ensures forall id | Deleted(db, id) :: !HasDevice(db, id)
  {
  }

  /**
   * Over any run: a deleted identity never comes back, no certificate disappears without a trace,
   * and one that has left `active` never returns to it.
   */
  lemma {:induction false} NothingIsUndone(dbs: seq<Db>, grants: seq<Option<string>>, torn: seq<Option<Fingerprint>>,
                                           i: nat, j: nat)
    requires Run(dbs, grants, torn) && i <= j < |dbs|
    ensures Evolves(dbs[i], dbs[j])
    ensures forall id | Deleted(dbs[i], id) :: !HasDevice(dbs[j], id)
  {
    RunIsSound(dbs, grants, torn, j);
    if i < j {
      NothingIsUndone(dbs, grants, torn, i, j - 1);
      RunIsSound(dbs, grants, torn, j - 1);
      assert StepOk(dbs[j - 1], dbs[j], grants[j - 1], torn[j - 1]);
      EvolvesOn(dbs[i], dbs[j - 1], dbs[j]);
    }
    DeletedIsGone(dbs[j]);
  }

  /** A device without access gets none until a request approves or enables that very device. */
  lemma {:induction false} BlockedUntilGranted(dbs: seq<Db>, grants: seq<Option<string>>,
                                               torn: seq<Option<Fingerprint>>,
                                               i: nat, j: nat, id: string)
    requires Run(dbs, grants, torn) && i <= j < |dbs|
    requires !Granted(dbs[i], id)
    requires forall k | i <= k < j :: grants[k] != Some(id)
    ensures !Granted(dbs[j], id)
  {
    if i < j {
      BlockedUntilGranted(dbs, grants, torn, i, j - 1, id);
      RunIsSound(dbs, grants, torn, j - 1);
      assert StepOk(dbs[j - 1], dbs[j], grants[j - 1], torn[j - 1]);
    }
  }

  // ----- the shapes of change that requests are made of

  /** Fields of a certificate no request after its registration touches, and its one-way status. */
  ghost predicate CertificateKept(c: Certificate, c': Certificate) {
    && c'.id == c.id && c'.deviceId == c.deviceId && c'.issuer == c.issuer
    && c'.fingerprint == c.fingerprint && c'.issuerFingerprint == c.issuerFingerprint
    && c'.brokerTrusted == c.brokerTrusted
    && (c'.status.Live? ==> c.status.Live?)
    && (c'.status.PendingSignature? ==> c.status.PendingSignature?)
  }

  ghost predicate DeviceKept(d: Device, d': Device, grants: Option<string>) {
    && d'.id == d.id
    && (d'.enabled && d'.trusted && d'.status.Active? && grants != Some(d.id) ==>
          d.enabled && d.trusted && d.status.Active?)
  }

  /** Records change in place. */
  ghost predicate Rewritten(a: Db, b: Db, grants: Option<string>) {
    && b.tombstones == a.tombstones && b.trustedCas == a.trustedCas
    && |b.devices| == |a.devices| && |b.certificates| == |a.certificates|
    && (forall i | 0 <= i < |a.devices| :: DeviceKept(a.devices[i], b.devices[i], grants))
    && (forall i | 0 <= i < |a.certificates| :: CertificateKept(a.certificates[i], b.certificates[i]))
  }

  lemma RewritingKeepsRecords(a: Db, b: Db, grants: Option<string>)
    requires Rewritten(a, b, grants)
    ensures forall id :: HasDevice(b, id) <==> HasDevice(a, id)
    ensures forall f: Fingerprint :: Registered(b, f) <==> Registered(a, f)
    ensures forall f: Fingerprint | IsLive(b, f) :: IsLive(a, f)
    ensures KeepsBlocked(a, b, grants)
  {
    forall id ensures HasDevice(b, id) <==> HasDevice(a, id) {
      if HasDevice(a, id) {
        var i :| 0 <= i < |a.devices| && a.devices[i].id == id;
        assert DeviceKept(a.devices[i], b.devices[i], grants) && b.devices[i] in b.devices;
      }
    }
    forall f: Fingerprint ensures Registered(b, f) <==> Registered(a, f) {
      if Registered(a, f) {
        var i :| 0 <= i < |a.certificates| && a.certificates[i].fingerprint == Some(f);
        assert CertificateKept(a.certificates[i], b.certificates[i]) && b.certificates[i] in b.certificates;
      }
    }
  }

  lemma RewritingIsOk(a: Db, b: Db, grants: Option<string>)
    requires Rewritten(a, b, grants)
    ensures RequestOk(a, b, grants)
  {
    if Sound(a) {
      RewritingKeepsRecords(a, b, grants);
      forall c | c in b.certificates
        ensures HasDevice(b, c.deviceId) && IssuerKnown(c) && StatusOk(c)
        ensures forall f | AgreesOn(a, f) && ImportedFrom(c, f) :: c.brokerTrusted <==> TrustedAuthority(b, f)
      {
        var i :| 0 <= i < |a.certificates| && c == b.certificates[i];
        var was := a.certificates[i];
        assert CertificateKept(was, c);
        assert StatusOk(was) && IssuerKnown(was) && HasDevice(a, was.deviceId);
      }
    }
  }

  lemma AddingDeviceIsOk(a: Db, d: Device)
    requires !HasDevice(a, d.id) && !Deleted(a, d.id) && !d.enabled
    ensures RequestOk(a, a.(devices := a.devices + [d]), None)
  {
    var b := a.(devices := a.devices + [d]);
    if Sound(a) {
      assert d in b.devices;
      forall id | HasDevice(a, id) ensures HasDevice(b, id) {
        var e :| e in a.devices && e.id == id;
        assert e in b.devices;
      }
    }
  }

  lemma AddingCertificateIsOk(a: Db, c: Certificate)
    requires c.fingerprint.Some? ==> !Known(a, c.fingerprint.value)
    requires StatusOk(c)
    requires HasDevice(a, c.deviceId) && TrustAgrees(a, c)
    ensures RequestOk(a, a.(certificates := [c] + a.certificates), None)
  {
    var b := a.(certificates := [c] + a.certificates);
    forall f: Fingerprint | Registered(a, f) ensures Registered(b, f) {
      var e :| e in a.certificates && e.fingerprint == Some(f);
      assert e in b.certificates;
    }
    if Sound(a) {
      forall i, j | 0 <= i < j < |b.certificates| && b.certificates[i].fingerprint.Some?
        ensures b.certificates[i].fingerprint != b.certificates[j].fingerprint
      {
        if i == 0 {
          assert b.certificates[j] == a.certificates[j - 1] && a.certificates[j - 1] in a.certificates;
        }
      }
    }
  }

  /** A request for an external signature is withdrawn: no issued certificate goes. */
  lemma DroppingRequestIsOk(a: Db, k: nat)
    requires k < |a.certificates| && a.certificates[k].fingerprint.None?
    ensures RequestOk(a, a.(certificates := a.certificates[..k] + a.certificates[k + 1..]), None)
  {
    var b := a.(certificates := a.certificates[..k] + a.certificates[k + 1..]);
    forall f: Fingerprint | Registered(a, f) ensures Registered(b, f) {
      var i :| 0 <= i < |a.certificates| && a.certificates[i].fingerprint == Some(f);
      assert a.certificates[i] == b.certificates[if i < k then i else i - 1];
    }
    assert forall c | c in b.certificates :: c in a.certificates;
    FewerAgree(a, b);
    RemovedAt(a.certificates, k);
  }

  // ----- permanent deletion

  predicate Related(c: Certificate, id: string) {
    c.deviceId == id
  }

  /** The fingerprints of an identity's certificates, in order. */
  function FingerprintsOf(certificates: seq<Certificate>, id: string): seq<Fingerprint> {
    if certificates == [] then []
    else
      var c := certificates[0];
      (if Related(c, id) && c.fingerprint.Some? then [c.fingerprint.value] else [])
      + FingerprintsOf(certificates[1..], id)
  }

  function Without(certificates: seq<Certificate>, id: string): seq<Certificate> {
    if certificates == [] then []
    else (if Related(certificates[0], id) then [] else [certificates[0]]) + Without(certificates[1..], id)
  }

  lemma {:induction false} FingerprintsOfAll(certificates: seq<Certificate>, id: string, f: Fingerprint)
    ensures f in FingerprintsOf(certificates, id) <==>
              exists c :: c in certificates && Related(c, id) && c.fingerprint == Some(f)
  {
    if certificates != [] {
      FingerprintsOfAll(certificates[1..], id, f);
      assert certificates == [certificates[0]] + certificates[1..];
    }
  }

  lemma {:induction false} WithoutIsOthers(certificates: seq<Certificate>, id: string)
    ensures forall c :: c in Without(certificates, id) <==> c in certificates && !Related(c, id)
  {
    if certificates != [] {
      WithoutIsOthers(certificates[1..], id);
      assert certificates == [certificates[0]] + certificates[1..];
    }
  }

  lemma {:induction false} WithoutKeepsOthers(certificates: seq<Certificate>, id: string)
    ensures forall c :: c in Without(certificates, id) <==> c in certificates && !Related(c, id)
    ensures DistinctFingerprints(certificates) ==> DistinctFingerprints(Without(certificates, id))
  {
    WithoutIsOthers(certificates, id);
    if certificates != [] && DistinctFingerprints(certificates) {
      var c, rest := certificates[0], Without(certificates[1..], id);
      WithoutKeepsOthers(certificates[1..], id);
      forall d | d in rest && c.fingerprint.Some? ensures d.fingerprint != c.fingerprint {
        WithoutIsOthers(certificates[1..], id);
        var k :| 0 <= k < |certificates[1..]| && certificates[1..][k] == d;
        assert d == certificates[k + 1];
      }
    }
  }

  /** Fewer certificates under the same authorities agree as before. */
  lemma FewerAgree(a: Db, b: Db)
    requires b.trustedCas == a.trustedCas && forall c | c in b.certificates :: c in a.certificates
    ensures KeepsAgreement(a, b, None)
  {
  }

  /** The registry after `permanentlyDeleteDevice`. */
  function AfterDeletion(a: Db, k: nat): Db
    requires k < |a.devices|
  {
    var id := a.devices[k].id;
    Db(a.devices[..k] + a.devices[k + 1..],
       Without(a.certificates, id),
       a.tombstones + [Tombstone(id, FingerprintsOf(a.certificates, id))],
       a.trustedCas)
  }

  lemma BuryingKeepsRecords(a: Db, k: nat)
    requires k < |a.devices|
    ensures forall f: Fingerprint :: Known(AfterDeletion(a, k), f) <==> Known(a, f)
    ensures forall f: Fingerprint ::
              Buried(AfterDeletion(a, k), f) <==> Buried(a, f) || f in FingerprintsOf(a.certificates, a.devices[k].id)
    ensures forall id :: Deleted(AfterDeletion(a, k), id) <==> Deleted(a, id) || id == a.devices[k].id
  {
    var b, id := AfterDeletion(a, k), a.devices[k].id;
    var t := b.tombstones[|a.tombstones|];
    assert t in b.tombstones;
    forall x ensures x in b.tombstones <==> x in a.tombstones || x == t {
    }
    WithoutKeepsOthers(a.certificates, id);
    forall f: Fingerprint ensures Known(b, f) <==> Known(a, f) {
      FingerprintsOfAll(a.certificates, id, f);
      if Registered(a, f) {
        var c :| c in a.certificates && c.fingerprint == Some(f);
        if !Related(c, id) {
          assert c in b.certificates;
        }
      }
    }
  }

  lemma RemovedAt<T>(s: seq<T>, k: nat)
    requires k < |s|
    ensures var r := s[..k] + s[k + 1..];
            |r| == |s| - 1 && forall i | 0 <= i < |r| :: r[i] == s[if i < k then i else i + 1]
  {
  }

  lemma BuryingRemovesOneDevice(a: Db, k: nat)
    requires k < |a.devices|
    requires forall i, j | 0 <= i < j < |a.devices| :: a.devices[i].id != a.devices[j].id
    ensures forall d :: d in AfterDeletion(a, k).devices <==> d in a.devices && d.id != a.devices[k].id
    ensures var devices := AfterDeletion(a, k).devices;
            forall i, j | 0 <= i < j < |devices| :: devices[i].id != devices[j].id
  {
    var devices := AfterDeletion(a, k).devices;
    RemovedAt(a.devices, k);
    forall d ensures d in devices <==> d in a.devices && d.id != a.devices[k].id {
      if d in devices {
        var i :| 0 <= i < |devices| && devices[i] == d;
        assert d == a.devices[if i < k then i else i + 1];
      }
      if d in a.devices && d.id != a.devices[k].id {
        var i :| 0 <= i < |a.devices| && a.devices[i] == d;
        assert d == devices[if i < k then i else i - 1];
      }
    }
  }

  lemma BuryingKeepsCertificates(a: Db, k: nat)
    requires k < |a.devices| && Sound(a)
    ensures var b := AfterDeletion(a, k);
            forall c | c in b.certificates ::
              && HasDevice(b, c.deviceId) && c in a.certificates
              && (c.fingerprint.Some? ==> !Buried(b, c.fingerprint.value))
  {
    var b, id := AfterDeletion(a, k), a.devices[k].id;
    BuryingKeepsRecords(a, k);
    BuryingRemovesOneDevice(a, k);
    WithoutKeepsOthers(a.certificates, id);
    forall c | c in b.certificates
      ensures HasDevice(b, c.deviceId) && c in a.certificates
              && (c.fingerprint.Some? ==> !Buried(b, c.fingerprint.value))
    {
      var d :| d in a.devices && d.id == c.deviceId;
      assert d in b.devices;
      if c.fingerprint.Some? {
        FingerprintsOfAll(a.certificates, id, c.fingerprint.value);
      }
    }
  }

  lemma BuryingIsSound(a: Db, k: nat)
    requires k < |a.devices| && Sound(a)
    ensures Sound(AfterDeletion(a, k))
  {
    var b, id := AfterDeletion(a, k), a.devices[k].id;
    BuryingKeepsRecords(a, k);
    BuryingRemovesOneDevice(a, k);
    BuryingKeepsCertificates(a, k);
    WithoutKeepsOthers(a.certificates, id);
    assert !Deleted(a, id) by { assert a.devices[k] in a.devices; }
    forall i, j | 0 <= i < j < |b.tombstones| ensures b.tombstones[i].id != b.tombstones[j].id {
      assert i < |a.tombstones| && b.tombstones[i] in a.tombstones;
    }
  }

  lemma BuryingIsOk(a: Db, k: nat)
    requires k < |a.devices|
    ensures RequestOk(a, AfterDeletion(a, k), None)
  {
    var b, id := AfterDeletion(a, k), a.devices[k].id;
    if Sound(a) {
      BuryingKeepsRecords(a, k);
      BuryingRemovesOneDevice(a, k);
      WithoutIsOthers(a.certificates, id);
      FewerAgree(a, b);
      BuryingIsSound(a, k);
    }
  }

  // ----- trust

  function WithTrust(c: Certificate, f: Fingerprint, trusted: bool): Certificate {
    if c.issuerFingerprint == Some(f) then c.(brokerTrusted := trusted) else c
  }

  function AllWithTrust(certificates: seq<Certificate>, f: Fingerprint, trusted: bool): seq<Certificate> {
    seq(|certificates|, i requires 0 <= i < |certificates| => WithTrust(certificates[i], f, trusted))
  }

  lemma TrustChangeKeepsRecords(a: Db, f: Fingerprint, trusted: bool, b: Db)
    requires b == a.(trustedCas := b.trustedCas, certificates := AllWithTrust(a.certificates, f, trusted))
    ensures forall x: Fingerprint :: Registered(b, x) <==> Registered(a, x)
    ensures forall x: Fingerprint | IsLive(b, x) :: IsLive(a, x)
  {
    forall x: Fingerprint ensures Registered(b, x) <==> Registered(a, x) {
      if Registered(a, x) {
        var i :| 0 <= i < |a.certificates| && a.certificates[i].fingerprint == Some(x);
        assert b.certificates[i] in b.certificates;
      }
    }
  }

  /** Trusting or distrusting an authority carries over to every certificate it issued, whatever was before. */
  lemma TrustChangeIsOk(a: Db, f: Fingerprint, trusted: bool, trustedCas: seq<Authority>)
    requires forall x: Fingerprint :: Among(trustedCas, x) <==> (if x == f then trusted else Among(a.trustedCas, x))
    requires forall i, j | 0 <= i < j < |trustedCas| ::
               trustedCas[i].id != trustedCas[j].id && trustedCas[i].fingerprint != trustedCas[j].fingerprint
    ensures var b := a.(trustedCas := trustedCas, certificates := AllWithTrust(a.certificates, f, trusted));
            RequestOk(a, b, None) && AgreesOn(b, f)
  {
    var b := a.(trustedCas := trustedCas, certificates := AllWithTrust(a.certificates, f, trusted));
    TrustChangeKeepsRecords(a, f, trusted, b);
    forall c | c in b.certificates ensures exists d :: d in a.certificates && c == WithTrust(d, f, trusted) {
      var i :| 0 <= i < |b.certificates| && b.certificates[i] == c;
      assert a.certificates[i] in a.certificates;
    }
    if Sound(a) {
      forall c | c in b.certificates ensures HasDevice(b, c.deviceId) && IssuerKnown(c) && StatusOk(c) {
        var d :| d in a.certificates && c == WithTrust(d, f, trusted);
        assert StatusOk(d) && IssuerKnown(d);
      }
      forall x | AgreesOn(a, x) && x != f ensures AgreesOn(b, x) {
        assert TrustedAuthority(b, x) <==> TrustedAuthority(a, x);
      }
    }
  }

  /** The registry that `addTrustedCa` saves before the certificates are flagged. */
  function WithAuthority(a: Db, id: nat, f: Fingerprint): Db {
    a.(trustedCas := a.trustedCas + [Authority(id, f)])
  }

  lemma OneMoreAuthority(a: Db, id: nat, f: Fingerprint, x: Fingerprint)
    ensures TrustedAuthority(WithAuthority(a, id, f), x) <==> x == f || TrustedAuthority(a, x)
  {
    var b := WithAuthority(a, id, f);
    assert b.trustedCas[|a.trustedCas|] == Authority(id, f);
    if TrustedAuthority(a, x) {
      var t :| t in a.trustedCas && t.fingerprint == x;
      assert t in b.trustedCas;
    }
  }

  /**
   * A trust request that raises between its two saves keeps everything but the agreement on its own
   * authority, and that exactly when no certificate has been imported from it.
   */
  lemma TornTrust(a: Db, id: nat, f: Fingerprint)
    requires !TrustedAuthority(a, f) && forall x | x in a.trustedCas :: x.id != id
    ensures StepOk(a, WithAuthority(a, id, f), None, Some(f))
    ensures AgreesOn(a, f) ==>
              (AgreesOn(WithAuthority(a, id, f), f) <==> forall c | c in a.certificates :: !ImportedFrom(c, f))
    ensures Valid(a) ==> (Valid(WithAuthority(a, id, f)) <==> forall c | c in a.certificates :: !ImportedFrom(c, f))
  {
    var b := WithAuthority(a, id, f);
    OneMoreAuthority(a, id, f, f);
    forall x: Fingerprint | x != f ensures AgreesOn(b, x) <==> AgreesOn(a, x) {
      OneMoreAuthority(a, id, f, x);
    }
    if Sound(a) {
      forall i, j | 0 <= i < j < |b.trustedCas|
        ensures b.trustedCas[i].id != b.trustedCas[j].id && b.trustedCas[i].fingerprint != b.trustedCas[j].fingerprint
      {
        assert b.trustedCas[i] in a.trustedCas;
      }
    }
  }

  /** One imported, untrusted certificate; its authority is then trusted, and the second save does not come. */
  lemma TornTrustOnOneCertificate(a: Db, c: Certificate)
    requires c == Certificate(0, "sensor", Live, External, Some(7), Some(1), false, 0, false, false, false, false)
    requires a == Db([Device("sensor", false, false, Active, None)], [c], [], [])
    ensures Valid(a) && Sound(WithAuthority(a, 0, 1)) && !Valid(WithAuthority(a, 0, 1))
  {
    assert a.devices[0] in a.devices && c in a.certificates;
    assert ImportedFrom(c, 1);
    TornTrust(a, 0, 1);
  }
}
