/**
 * The requests of the certificate and device API (admin-web/src/routes/certificate-routes.js and
 * admin-web/src/services/identity-service.js), each against the invariant of the registry, what it
 * may never undo, and what it is for.
 */
module Requests {
  import opened Outcomes
  import opened Registry

  /** The status of a refusal; a request that throws midway keeps what it has already saved. */
  datatype Response = Done | Refused(status: nat) | Failed

  const ARCHIVE_RETENTION: int := 30 * 24 * 60 * 60 * 1000

  predicate NameCharacter(c: char) {
    'A' <= c <= 'Z' || 'a' <= c <= 'z' || '0' <= c <= '9' || c == '.' || c == '_' || c == '-'
  }

  predicate ValidId(id: string, reserved: string) {
    && 1 <= |id| <= 64
    && (forall c | c in id :: NameCharacter(c))
    && id != reserved
  }

  predicate ManagedHere(c: Certificate) {
    c.issuer.Local? || c.issuer.Legacy?
  }

  predicate Usable(c: Certificate, id: string, now: int) {
    c.deviceId == id && c.status.Live? && c.brokerTrusted && c.validTo > now
  }

  predicate HasUsableCredential(db: Db, id: string, now: int) {
    exists c | c in db.certificates :: Usable(c, id, now)
  }

  /** The first device with the identifier. */
  function DeviceAt(devices: seq<Device>, id: string): (k: Option<nat>)
    ensures k.Some? ==> k.value < |devices| && devices[k.value].id == id
    ensures k.None? ==> forall d | d in devices :: d.id != id
  {
    if devices == [] then None
    else if devices[0].id == id then Some(0)
    else match DeviceAt(devices[1..], id) case None => None case Some(k) => Some(k + 1)
  }

  function CertificateAt(certificates: seq<Certificate>, id: nat): (k: Option<nat>)
    ensures k.Some? ==> k.value < |certificates| && certificates[k.value].id == id
    ensures k.None? ==> forall c | c in certificates :: c.id != id
  {
    if certificates == [] then None
    else if certificates[0].id == id then Some(0)
    else match CertificateAt(certificates[1..], id) case None => None case Some(k) => Some(k + 1)
  }

  function AuthorityAt(authorities: seq<Authority>, id: nat): (k: Option<nat>)
    ensures k.Some? ==> k.value < |authorities| && authorities[k.value].id == id
    ensures k.None? ==> forall a | a in authorities :: a.id != id
  {
    if authorities == [] then None
    else if authorities[0].id == id then Some(0)
    else match AuthorityAt(authorities[1..], id) case None => None case Some(k) => Some(k + 1)
  }

  function ArchivedDevice(d: Device, now: int): Device {
    d.(status := Archived, enabled := false, trusted := false, deleteAt := Some(now + ARCHIVE_RETENTION))
  }

  /** The list without access for `id`. */
  function Disabled(devices: seq<Device>, id: string): seq<Device> {
    match DeviceAt(devices, id)
    case None => devices
    case Some(k) => devices[k := devices[k].(enabled := false, trusted := false)]
  }

  /** A certificate after its identity has been archived, before or after its turn to enter the revocation list. */
  function AfterArchive(c: Certificate, id: string, listed: bool): Certificate {
    if listed && ToRevoke(OutOfService(c, id), id) then OutOfService(c, id).(status := Revoked) else OutOfService(c, id)
  }

  function OutOfService(c: Certificate, id: string): Certificate {
    if c.deviceId == id && c.status.Live? then c.(status := Blocked, archivedWithIdentity := true) else c
  }

  predicate ToRevoke(c: Certificate, id: string) {
    c.deviceId == id && c.archivedWithIdentity && ManagedHere(c)
  }

  /** `b` is `a` with the k-th device archived and the first `n` certificates gone through for revocation. */
  ghost predicate Archiving(a: Db, b: Db, k: nat, now: int, n: nat) {
    && k < |a.devices| && n <= |a.certificates|
    && b == Db(a.devices[k := ArchivedDevice(a.devices[k], now)], b.certificates, a.tombstones, a.trustedCas)
    && |b.certificates| == |a.certificates|
    && forall i | 0 <= i < |a.certificates| ::
        b.certificates[i] == AfterArchive(a.certificates[i], a.devices[k].id, i < n)
  }

  lemma ArchivingOneMore(a: Db, b: Db, k: nat, now: int, i: nat, c: Certificate)
    requires Archiving(a, b, k, now, i) && i < |a.certificates| && c == b.certificates[i]
    ensures c == OutOfService(a.certificates[i], a.devices[k].id)
    ensures ToRevoke(c, a.devices[k].id) ==>
              Archiving(a, b.(certificates := b.certificates[i := c.(status := Revoked)]), k, now, i + 1)
    ensures !ToRevoke(c, a.devices[k].id) ==> Archiving(a, b, k, now, i + 1)
  {
  }

  ghost predicate Stage(a: Db, b: Db, k: nat, now: int) {
    exists n: nat :: Archiving(a, b, k, now, n)
  }

  /** At every stage of it the device has no access and no live certificate. */
  lemma ArchivingIsOk(a: Db, b: Db, k: nat, now: int, n: nat)
    requires Archiving(a, b, k, now, n)
    ensures RequestOk(a, b, None)
    ensures Sound(a) ==> !Granted(b, a.devices[k].id)
    ensures forall c | c in b.certificates && c.deviceId == a.devices[k].id :: !c.status.Live?
    ensures |b.devices| == |a.devices| && b.devices[k].status.Archived? && !b.devices[k].enabled
    ensures forall i | 0 <= i < |a.devices| && i != k :: b.devices[i] == a.devices[i]
    ensures |b.certificates| == |a.certificates|
    ensures forall i | 0 <= i < |a.certificates| ::
              var c, c' := a.certificates[i], b.certificates[i];
              && (c.deviceId != a.devices[k].id ==> c' == c)
              && (c.deviceId == a.devices[k].id && c.status.Live? ==>
                    if i < n && (c.issuer.Local? || c.issuer.Legacy?) then c'.status.Revoked? else c'.status.Blocked?)
  {
    RewritingIsOk(a, b, None);
    assert b.devices[k] in b.devices;
  }

  lemma StagesAreOk(a: Db, k: nat, now: int, saved: seq<Db>)
    requires k < |a.devices| && forall b | b in saved :: Stage(a, b, k, now)
    ensures forall b | b in saved :: RequestOk(a, b, None) && (Sound(a) ==> !Granted(b, a.devices[k].id))
    ensures forall b, c | b in saved && c in b.certificates && c.deviceId == a.devices[k].id :: !c.status.Live?
  {
    forall b | b in saved
      ensures RequestOk(a, b, None) && (Sound(a) ==> !Granted(b, a.devices[k].id))
      ensures forall c | c in b.certificates && c.deviceId == a.devices[k].id :: !c.status.Live?
    {
      var n: nat :| Archiving(a, b, k, now, n);
      ArchivingIsOk(a, b, k, now, n);
    }
  }

  /** How many certificates of an archived identity are gone through before an entry in the revocation list fails. */
  function SavedUpTo(certificates: seq<Certificate>, id: string, crlFails: nat -> bool): (n: nat)
    ensures n <= |certificates|
  {
    if certificates == [] then 0
    else if ToRevoke(OutOfService(certificates[0], id), id) && crlFails(certificates[0].id) then 0
    else 1 + SavedUpTo(certificates[1..], id, crlFails)
  }

  lemma SavedOneMore(certificates: seq<Certificate>, i: nat, id: string, crlFails: nat -> bool)
    requires i < |certificates|
    ensures var c := OutOfService(certificates[i], id);
            SavedUpTo(certificates[i..], id, crlFails)
            == if ToRevoke(c, id) && crlFails(c.id) then 0 else 1 + SavedUpTo(certificates[i + 1..], id, crlFails)
  {
    assert certificates[i..][1..] == certificates[i + 1..];
  }

  /** Without a failure, all are gone through. */
  lemma {:induction false} AllAreSaved(certificates: seq<Certificate>, id: string, crlFails: nat -> bool)
    requires forall c | c in certificates :: ToRevoke(OutOfService(c, id), id) ==> !crlFails(c.id)
    ensures SavedUpTo(certificates, id, crlFails) == |certificates|
  {
    if certificates != [] {
      assert certificates[0] in certificates && forall c | c in certificates[1..] :: c in certificates;
      AllAreSaved(certificates[1..], id, crlFails);
    }
  }

  /** No entry in the revocation list fails exactly if none would have failed at the outset. */
  lemma ToRevokeStays(a: Db, b: Db, k: nat, now: int, n: nat, crlFails: nat -> bool)
    requires Archiving(a, b, k, now, n)
    ensures var id := a.devices[k].id;
            (forall c | c in b.certificates && ToRevoke(c, id) :: !crlFails(c.id))
            <==> forall c | c in a.certificates && ToRevoke(OutOfService(c, id), id) :: !crlFails(c.id)
  {
    var id := a.devices[k].id;
    if forall c | c in b.certificates && ToRevoke(c, id) :: !crlFails(c.id) {
      forall c | c in a.certificates && ToRevoke(OutOfService(c, id), id) ensures !crlFails(c.id) {
        var i :| 0 <= i < |a.certificates| && a.certificates[i] == c;
        assert b.certificates[i] == AfterArchive(c, id, i < n) && b.certificates[i] in b.certificates;
      }
    }
    if forall c | c in a.certificates && ToRevoke(OutOfService(c, id), id) :: !crlFails(c.id) {
      forall c | c in b.certificates && ToRevoke(c, id) ensures !crlFails(c.id) {
        var i :| 0 <= i < |b.certificates| && b.certificates[i] == c;
        assert c == AfterArchive(a.certificates[i], id, i < n) && a.certificates[i] in a.certificates;
      }
    }
  }

  /** Where an archive ends when no entry in the revocation list fails, and that the device is archived anyway. */
  lemma ArchiveEnds(a: Db, b: Db, k: nat, now: int, crlFails: nat -> bool)
    requires k < |a.devices| && DeviceAt(a.devices, a.devices[k].id) == Some(k)
    requires Archiving(a, b, k, now, SavedUpTo(a.certificates, a.devices[k].id, crlFails))
    ensures var id := a.devices[k].id;
            RequestOk(a, b, None) && (Sound(a) ==> !Granted(b, id)) && HasStatus(b, id, Archived)
    ensures var id := a.devices[k].id;
            (forall c | c in a.certificates && ToRevoke(OutOfService(c, id), id) :: !crlFails(c.id)) ==>
              && |b.certificates| == |a.certificates|
              && forall i | 0 <= i < |a.certificates| ::
                   var c, c' := a.certificates[i], b.certificates[i];
                   && (c.deviceId != id ==> c' == c)
                   && (c.deviceId == id && c.status.Live? ==>
                         if c.issuer.Local? || c.issuer.Legacy? then c'.status.Revoked? else c'.status.Blocked?)
  {
    var id := a.devices[k].id;
    ArchivingIsOk(a, b, k, now, SavedUpTo(a.certificates, id, crlFails));
    PlaceStays(a.devices, k, ArchivedDevice(a.devices[k], now), id);
    if forall c | c in a.certificates && ToRevoke(OutOfService(c, id), id) :: !crlFails(c.id) {
      AllAreSaved(a.certificates, id, crlFails);
    }
  }

  predicate Expired(d: Device, now: int) {
    d.status.Archived? && d.deleteAt.Some? && d.deleteAt.value <= now
  }

  /** No device of this identifier has been archived for longer than its retention. */
  predicate Spared(devices: seq<Device>, id: string, now: int) {
    forall d | d in devices && Expired(d, now) :: d.id != id
  }

  /** `b` is `a` after the first `n` of its devices have been gone through. */
  ghost predicate Purged(a: Db, b: Db, devices: seq<Device>, n: nat, now: int) {
    && RequestOk(a, b, None) && b.trustedCas == a.trustedCas
    && (Sound(a) ==>
          forall k | 0 <= k < |devices| ::
            if k < n && Expired(devices[k], now) then Deleted(b, devices[k].id) else devices[k] in b.devices)
    && forall c | c in a.certificates && Spared(devices, c.deviceId, now) :: c in b.certificates
  }

  lemma PurgedOneMore(a: Db, b: Db, b': Db, devices: seq<Device>, i: nat, now: int)
    requires a.devices == devices && Purged(a, b, devices, i, now) && i < |devices| && Expired(devices[i], now)
    requires RequestOk(b, b', None) && b'.trustedCas == b.trustedCas
    requires b' == b || b'.certificates == Without(b.certificates, devices[i].id)
    requires b' == b && Sound(b) ==> !HasDevice(b, devices[i].id)
    requires b' != b && Sound(b) ==>
               && Deleted(b', devices[i].id)
               && forall d :: d in b'.devices <==> d in b.devices && d.id != devices[i].id
    ensures Purged(a, b', devices, i + 1, now)
  {
    RequestsCompose(a, b, b', None);
    WithoutKeepsOthers(b.certificates, devices[i].id);
  }

  /** An identity that has just been registered: active, and without access. */
  function NewIdentity(id: string): Device {
    Device(id, false, false, Active, None)
  }

  /** `ensureIdentity`: the registry with the identity in it, or the status of the refusal. */
  function EnsureIdentity(db: Db, id: string, reserved: string): (r: (Db, Response))
    ensures r.1.Done? ==>
              && ValidId(id, reserved) && !Deleted(db, id) && HasDevice(r.0, id)
              && r.0 == db.(devices := r.0.devices)
              && (r.0 == db || (!HasDevice(db, id) && r.0.devices == db.devices + [NewIdentity(id)]))
    ensures !r.1.Done? ==> r.1.Refused?
    ensures var at := DeviceAt(db.devices, id);
            r.1.Done? <==>
              ValidId(id, reserved) && !Deleted(db, id) && (at.Some? ==> db.devices[at.value].status.Active?)
  {
    if !ValidId(id, reserved) then (db, Refused(400))
    else if exists t | t in db.tombstones :: t.id == id then (db, Refused(409))
    else
      match DeviceAt(db.devices, id)
      case None =>
        var d := NewIdentity(id);
        var db' := db.(devices := db.devices + [d]);
        assert d in db'.devices;
        (db', Done)
      case Some(k) => if db.devices[k].status.Active? then (db, Done) else (db, Refused(409))
  }

  lemma EnsureIdentityIsOk(db: Db, id: string, reserved: string)
    requires EnsureIdentity(db, id, reserved).1.Done?
    ensures RequestOk(db, EnsureIdentity(db, id, reserved).0, None)
  {
    if EnsureIdentity(db, id, reserved).0 != db {
      AddingDeviceIsOk(db, NewIdentity(id));
    }
  }

  /** The internal authority and the trusted ones. */
  ghost predicate Anchor(db: Db, caFingerprint: Fingerprint, f: Fingerprint) {
    f == caFingerprint || TrustedAuthority(db, f)
  }

  function AuthorityFingerprints(authorities: seq<Authority>): (r: seq<Fingerprint>) {
    seq(|authorities|, i requires 0 <= i < |authorities| => authorities[i].fingerprint)
  }

  lemma AnchorsAreAll(db: Db, caFingerprint: Fingerprint)
    ensures forall f: Fingerprint ::
              f in [caFingerprint] + AuthorityFingerprints(db.trustedCas) <==> Anchor(db, caFingerprint, f)
  {
    var fingerprints := AuthorityFingerprints(db.trustedCas);
    forall f: Fingerprint | TrustedAuthority(db, f) ensures f in fingerprints {
      var i :| 0 <= i < |db.trustedCas| && db.trustedCas[i].fingerprint == f;
      assert fingerprints[i] == f;
    }
  }

  /** The other records after an import: the request it completes waits no longer. */
  function AfterImport(certificates: seq<Certificate>, pending: Option<nat>): seq<Certificate> {
    if pending.None? then certificates
    else
      match CertificateAt(certificates, pending.value)
      case None => certificates
      case Some(k) => certificates[k := certificates[k].(status := SignatureCompleted)]
  }

  /** A certificate that the internal authority has just signed. */
  function Issued(id: nat, deviceId: string, f: Fingerprint, trusted: bool, validTo: int): Certificate {
    Certificate(id, deviceId, Live, Local, Some(f), None, trusted, validTo, false, false, false, false)
  }

  function ChangedIf(c: Certificate, select: Certificate -> bool, change: Certificate -> Certificate): Certificate {
    if select(c) then change(c) else c
  }

  /** What the API and the archive timer may ask for. */
  datatype Request =
    | NewDevice(id: string)
    | ChangeDevice(id: string, enabled: Option<bool>)
    | Approve(id: string, confirm: string)
    | Restore(id: string)
    | Archive(id: string, confirm: string, crlFails: nat -> bool)
    | Delete(id: string, confirm: string)
    | Purge(fails: string -> bool)
    | Revoke(certificate: nat)
    | DropLicense(certificate: nat, phrase: bool, permanent: bool, blockedByCrl: bool)
    | Sign(previous: Option<nat>, id: string, csr: bool, certificate: nat, f: Fingerprint, validTo: int)
    | MakeKey(id: string, certificate: nat, f: Fingerprint, validTo: int)
    | AskForSignature(id: string, certificate: nat)
    | Cancel(certificate: nat)
    | KeyReceived(certificate: nat, downloaded: bool)
    | Take(pending: Option<nat>, id: string, commonName: string, f: Fingerprint, validTo: int, wellFormed: bool,
           roots: seq<Fingerprint>, verifies: Fingerprint -> bool, certificate: nat)
    | Trust(f: Fingerprint, confirmed: bool, usable: bool, initFails: bool, authority: nat)
    | Distrust(authority: nat)

  /** The identity a request may give access to: approving or enabling it is the only way. */
  function Grants(request: Request): Option<string> {
    match request
    case Approve(id, _) => Some(id)
    case ChangeDevice(id, Some(true)) => Some(id)
    case _ => None
  }

  /** A trust request raises after its first save, and certificates of the authority are registered. */
  ghost predicate Tears(db: Db, request: Request) {
    && request.Trust? && request.confirmed && request.usable && request.initFails
    && !TrustedAuthority(db, request.f) && AuthorityAt(db.trustedCas, request.authority).None?
    && exists c :: c in db.certificates && ImportedFrom(c, request.f)
  }

  ghost function Torn(db: Db, request: Request): Option<Fingerprint> {
    if Tears(db, request) then Some(request.f) else None
  }

  ghost function AllTorn(dbs: seq<Db>, requests: seq<(Request, int)>): seq<Option<Fingerprint>>
    requires |dbs| == |requests| + 1
  {
    seq(|requests|, i requires 0 <= i < |requests| => Torn(dbs[i], requests[i].0))
  }

  /** None of the requests i to j - 1 tears on the authority `f`. */
  ghost predicate NotTorn(dbs: seq<Db>, requests: seq<(Request, int)>, i: nat, j: nat, f: Fingerprint)
    requires |dbs| == |requests| + 1 && i <= j <= |requests|
  {
    forall k | i <= k < j :: Torn(dbs[k], requests[k].0) != Some(f)
  }

  function AllGrants(requests: seq<(Request, int)>): seq<Option<string>> {
    seq(|requests|, i requires 0 <= i < |requests| => Grants(requests[i].0))
  }

  /** None of the requests i to j - 1 may give `id` access. */
  predicate NotGranted(requests: seq<(Request, int)>, i: nat, j: nat, id: string)
    requires i <= j <= |requests|
  {
    forall k | i <= k < j :: Grants(requests[k].0) != Some(id)
  }

  // ----- what a request needs and what it achieves

  predicate HasStatus(db: Db, id: string, status: DeviceStatus) {
    var at := DeviceAt(db.devices, id);
    at.Some? && db.devices[at.value].status == status
  }

  /** The requests that are carried out to their end; all others are refused or fail midway. */
  ghost predicate Acceptable(request: Request, now: int, db: Db, reserved: string, caFingerprint: Fingerprint) {
    match request
    case NewDevice(id) => ValidId(id, reserved) && !HasDevice(db, id) && !Deleted(db, id)
    case ChangeDevice(id, enabled) =>
      HasStatus(db, id, Active) && (enabled == Some(true) ==> HasUsableCredential(db, id, now))
    case Approve(id, confirm) => confirm == id && HasStatus(db, id, Active) && HasUsableCredential(db, id, now)
    case Restore(id) => HasStatus(db, id, Archived)
    case Archive(id, confirm, crlFails) =>
      && confirm == id && HasStatus(db, id, Active)
      && forall c | c in db.certificates && ToRevoke(OutOfService(c, id), id) :: !crlFails(c.id)
    case Delete(id, confirm) => confirm == "DELETE " + id && HasDevice(db, id)
    case Purge(fails) => forall d | d in db.devices && Expired(d, now) :: !fails(d.id)
    case Revoke(n) =>
      var at := CertificateAt(db.certificates, n);
      at.Some? && !db.certificates[at.value].status.Revoked?
    case DropLicense(n, phrase, _, _) =>
      var at := CertificateAt(db.certificates, n);
      at.Some? && phrase && !db.certificates[at.value].licenseDeleted
    case Sign(None, id, csr, _, f, _) => !Known(db, f) && csr && HasStatus(db, id, Active)
    case Sign(Some(previous), _, _, _, f, _) =>
      var at := CertificateAt(db.certificates, previous);
      && !Known(db, f) && at.Some?
      && var c := db.certificates[at.value];
         && HasStatus(db, c.deviceId, Active)
         && c.status.Live? && !c.issuer.External? && !c.licenseArchived && !c.licenseDeleted
    case MakeKey(id, _, f, _) =>
      !Known(db, f) && ValidId(id, reserved) && !Deleted(db, id) && (HasDevice(db, id) ==> HasStatus(db, id, Active))
    case AskForSignature(id, _) =>
      ValidId(id, reserved) && !Deleted(db, id) && (HasDevice(db, id) ==> HasStatus(db, id, Active))
    case Cancel(n) => Waiting(db, n)
    case KeyReceived(n, downloaded) => downloaded && Waiting(db, n)
    case Take(pending, id, commonName, f, _, wellFormed, roots, verifies, _) =>
      && (pending.Some? ==>
            var at := CertificateAt(db.certificates, pending.value);
            && Waiting(db, pending.value)
            && db.certificates[at.value].keyReceived && db.certificates[at.value].deviceId == commonName)
      && (pending.None? ==> commonName == id)
      && ValidId(commonName, reserved) && !Deleted(db, commonName)
      && (HasDevice(db, commonName) ==> HasStatus(db, commonName, Active))
      && wellFormed && !Known(db, f)
      && exists a :: (Anchor(db, caFingerprint, a) || a in roots) && verifies(a)
    case Trust(f, confirmed, usable, initFails, n) =>
      confirmed && usable && !initFails && !TrustedAuthority(db, f) && AuthorityAt(db.trustedCas, n).None?
    case Distrust(n) => AuthorityAt(db.trustedCas, n).Some?
  }

  predicate Waiting(db: Db, n: nat)
    ensures Waiting(db, n) ==> CertificateAt(db.certificates, n).Some?
  {
    var at := CertificateAt(db.certificates, n);
    at.Some? && db.certificates[at.value].status.PendingSignature?
  }

  /** Nothing but the record of the device `id` may differ. */
  ghost predicate OnlyDevice(a: Db, b: Db, id: string) {
    && b == a.(devices := b.devices) && |b.devices| == |a.devices|
    && forall i | 0 <= i < |a.devices| && a.devices[i].id != id :: b.devices[i] == a.devices[i]
  }

  /** Nothing but a certificate in front, and perhaps a new identity, has been added. */
  ghost predicate OnlyInFront(a: Db, b: Db, id: string) {
    && 0 < |b.certificates| && b.certificates[1..] == a.certificates && b.certificates[0].deviceId == id
    && b.tombstones == a.tombstones && b.trustedCas == a.trustedCas
    && (b.devices == a.devices || b.devices == a.devices + [NewIdentity(id)])
  }

  /** What a request has achieved when it is done. */
  ghost predicate Achieved(request: Request, now: int, a: Db, b: Db) {
    match request
    case NewDevice(id) => b == a.(devices := a.devices + [NewIdentity(id)])
    case ChangeDevice(id, enabled) =>
      && OnlyDevice(a, b, id) && (enabled.None? ==> b == a)
      && (enabled == Some(true) ==> Granted(b, id))
      && (enabled == Some(false) && Sound(a) ==> !Granted(b, id))
    case Approve(id, _) => OnlyDevice(a, b, id) && Granted(b, id)
    case Restore(id) => OnlyDevice(a, b, id) && HasStatus(b, id, Active) && (Sound(a) ==> !Granted(b, id))
    case Archive(id, _, _) =>
      && HasStatus(b, id, Archived) && (Sound(a) ==> !Granted(b, id))
      && b.tombstones == a.tombstones && b.trustedCas == a.trustedCas
      && |b.certificates| == |a.certificates|
      && forall i | 0 <= i < |a.certificates| ::
           var c, c' := a.certificates[i], b.certificates[i];
           if c.deviceId != id then c' == c
           else c.status.Live? ==> if c.issuer.External? then c'.status.Blocked? else c'.status.Revoked?
    case Delete(id, _) =>
      Sound(a) ==>
        && Deleted(b, id) && b.certificates == Without(a.certificates, id) && b.trustedCas == a.trustedCas
        && (forall d :: d in b.devices <==> d in a.devices && d.id != id)
        && forall f: Fingerprint :: Buried(b, f) <==> Buried(a, f) || f in FingerprintsOf(a.certificates, id)
    case Purge(_) =>
      && b.trustedCas == a.trustedCas
      && (forall c | c in a.certificates && Spared(a.devices, c.deviceId, now) :: c in b.certificates)
      && (Sound(a) ==>
            forall d | d in a.devices ::
              if Expired(d, now) then Deleted(b, d.id) && !HasDevice(b, d.id) else d in b.devices)
    case Revoke(n) =>
      var at := CertificateAt(a.certificates, n);
      && at.Some?
      && var c := a.certificates[at.value];
         && b.certificates == a.certificates[at.value := c.(status := Revoked)]
         && OnlyDevice(a.(certificates := b.certificates), b, c.deviceId) && (Sound(a) ==> !Granted(b, c.deviceId))
    case DropLicense(n, _, permanent, blockedByCrl) =>
      var at := CertificateAt(a.certificates, n);
      && at.Some?
      && var c := a.certificates[at.value];
         && b.certificates == a.certificates[at.value := c.(status := Revoked, licenseArchived := true,
                                                            licenseDeleted := permanent)]
         && OnlyDevice(a.(certificates := b.certificates), b, c.deviceId)
         && if blockedByCrl && !c.issuer.External? then b.devices == a.devices
            else Sound(a) ==> !Granted(b, c.deviceId)
    case Sign(previous, id, _, n, f, validTo) =>
      var at := if previous.Some? then CertificateAt(a.certificates, previous.value) else None;
      && OnlyInFront(a, b, if at.Some? then a.certificates[at.value].deviceId else id) && b.devices == a.devices
      && b.certificates[0].status.Live? && b.certificates[0].issuer.Local?
      && b.certificates[0].fingerprint == Some(f) && b.certificates[0].id == n && b.certificates[0].validTo == validTo
      && (b.certificates[0].brokerTrusted <==> (at.Some? ==> a.certificates[at.value].brokerTrusted))
    case MakeKey(id, n, f, validTo) =>
      && OnlyInFront(a, b, id) && HasDevice(b, id)
      && b.certificates[0].fingerprint == Some(f) && b.certificates[0].id == n
      && forall t | t < validTo :: HasUsableCredential(b, id, t)
    case AskForSignature(id, n) =>
      && OnlyInFront(a, b, id) && HasDevice(b, id)
      && b.certificates[0].id == n && b.certificates[0].status.PendingSignature? && !b.certificates[0].keyReceived
    case Cancel(n) =>
      var at := CertificateAt(a.certificates, n);
      && at.Some? && b == a.(certificates := b.certificates)
      && b.certificates == a.certificates[..at.value] + a.certificates[at.value + 1..]
    case KeyReceived(n, _) =>
      var at := CertificateAt(a.certificates, n);
      && at.Some? && b == a.(certificates := b.certificates)
      && b.certificates == a.certificates[at.value := a.certificates[at.value].(keyReceived := true)]
    case Take(pending, _, commonName, f, validTo, _, _, _, _) =>
      && IsLive(b, f) && HasDevice(b, commonName)
      && 0 < |b.certificates| && b.certificates[0].fingerprint == Some(f)
      && b.certificates[0].deviceId == commonName && b.certificates[0].validTo == validTo
      && b.certificates[1..] == AfterImport(a.certificates, pending)
    case Trust(f, _, _, _, _) =>
      && TrustedAuthority(b, f) && b == a.(trustedCas := b.trustedCas, certificates := b.certificates)
      && (forall c | c in b.certificates && c.issuerFingerprint == Some(f) :: c.brokerTrusted)
    case Distrust(n) =>
      var at := AuthorityAt(a.trustedCas, n);
      && at.Some? && b == a.(trustedCas := b.trustedCas, certificates := b.certificates)
      && var f := a.trustedCas[at.value].fingerprint;
         && (Sound(a) ==> !TrustedAuthority(b, f) && AgreesOn(b, f))
         && forall c | c in b.certificates && c.issuerFingerprint == Some(f) :: !c.brokerTrusted
  }

  lemma {:induction false} PlaceStays(devices: seq<Device>, k: nat, d: Device, id: string)
    requires k < |devices| && d.id == devices[k].id
    ensures DeviceAt(devices[k := d], id) == DeviceAt(devices, id)
  {
    if devices[0].id != id && k > 0 {
      assert devices[k := d][1..] == devices[1..][k - 1 := d];
      PlaceStays(devices[1..], k - 1, d, id);
    } else if devices[0].id != id {
      assert devices[k := d][1..] == devices[1..];
    }
  }

  // ----- what these definitions come to

  /** An identifier has 1 to 64 letters, digits, full stops, hyphens and underscores of ASCII. */
  lemma IdentifierRules(id: string, reserved: string)
    ensures ValidId(id, reserved) <==>
              && 0 < |id| < 65 && id != reserved
              && forall i | 0 <= i < |id| ::
                   var code := id[i] as int;
                   48 <= code <= 57 || 65 <= code <= 90 || 97 <= code <= 122 || code == 45 || code == 46 || code == 95
  {
    assert forall i | 0 <= i < |id| :: id[i] in id;
  }

  /** An archive is kept for exactly thirty days, and nothing but an archive is ever deleted by its age. */
  lemma ArchiveIsKeptThirtyDays(d: Device, now: int, later: int)
    ensures Expired(ArchivedDevice(d, now), later) <==> later - now >= 2_592_000_000
    ensures d.status.Active? ==> !Expired(d, later)
    ensures ArchivedDevice(d, now).id == d.id && !Expired(NewIdentity(d.id), later)
  {
  }

  /** Approval and enabling are the only requests that may give access. */
  lemma OnlyApprovalGrants(request: Request, id: string)
    ensures Grants(request) == Some(id) <==>
              || (request.Approve? && request.id == id)
              || (request.ChangeDevice? && request.id == id && request.enabled == Some(true))
  {
    match request
    case ChangeDevice(_, enabled) =>
    case _ =>
  }

  /** The list without access for `id` is the same for everybody else. */
  lemma DisabledTouchesOne(devices: seq<Device>, id: string)
    ensures |Disabled(devices, id)| == |devices|
    ensures forall i | 0 <= i < |devices| && devices[i].id != id :: Disabled(devices, id)[i] == devices[i]
    ensures forall d | d in devices && d.id != id :: d in Disabled(devices, id)
    ensures forall i | 0 <= i < |devices| :: Disabled(devices, id)[i].id == devices[i].id
    ensures (forall i, j | 0 <= i < j < |devices| :: devices[i].id != devices[j].id) ==>
              forall d | d in Disabled(devices, id) && d.id == id :: !d.enabled && !d.trusted
  {
    forall d | d in devices && d.id != id ensures d in Disabled(devices, id) {
      var i :| 0 <= i < |devices| && devices[i] == d;
      assert Disabled(devices, id)[i] == d;
    }
  }

  class Gateway {
    var db: Db
    const reserved: string              // the Admin's own MQTT identity
    const caFingerprint: Fingerprint    // the internal authority

    constructor (reserved: string, caFingerprint: Fingerprint)
      ensures db == Db([], [], [], []) && Sound(db)
      ensures this.reserved == reserved && this.caFingerprint == caFingerprint
    {
      db := Db([], [], [], []);
      this.reserved, this.caFingerprint := reserved, caFingerprint;
    }

    /** The loops over the certificates that change some of them in place. */
    method ChangeCertificates(select: Certificate -> bool, change: Certificate -> Certificate)
      modifies this
      ensures db == old(db).(certificates := db.certificates) && |db.certificates| == |old(db.certificates)|
      ensures forall i | 0 <= i < |db.certificates| ::
                db.certificates[i] == ChangedIf(old(db.certificates)[i], select, change)
    {
      for i := 0 to |db.certificates|
        invariant db == old(db).(certificates := db.certificates) && |db.certificates| == |old(db.certificates)|
        invariant forall k | i <= k < |db.certificates| :: db.certificates[k] == old(db.certificates)[k]
        invariant forall k | 0 <= k < i ::
                    db.certificates[k] == ChangedIf(old(db.certificates)[k], select, change)
      {
        if select(db.certificates[i]) {
          db := db.(certificates := db.certificates[i := change(db.certificates[i])]);
        }
      }
    }

    method CreateDevice(id: string) returns (r: Response)
      modifies this
      ensures RequestOk(old(db), db, None)
      ensures r.Done? <==> ValidId(id, reserved) && !HasDevice(old(db), id) && !Deleted(old(db), id)
      ensures r.Done? ==> db == old(db).(devices := old(db).devices + [NewIdentity(id)])
      ensures r.Done? ==> exists d :: d in db.devices && d.id == id && !d.enabled && !d.trusted && d.status.Active?
      ensures !r.Done? ==> db == old(db) && r == Refused(if ValidId(id, reserved) then 409 else 400)
    {
      if !ValidId(id, reserved) {
        return Refused(400);
      }
      if DeviceAt(db.devices, id).Some? || exists t | t in db.tombstones :: t.id == id {
        return Refused(409);
      }
      AddingDeviceIsOk(db, NewIdentity(id));
      db := db.(devices := db.devices + [NewIdentity(id)]);
      return Done;
    }

    /** Replaces one device record. */
    method PutDevice(k: nat, d: Device, ghost grants: Option<string>)
      requires k < |db.devices| && DeviceKept(db.devices[k], d, grants)
      modifies this
      ensures db == old(db).(devices := old(db).devices[k := d])
      ensures RequestOk(old(db), db, grants)
    {
      var db' := db.(devices := db.devices[k := d]);
      RewritingIsOk(db, db', grants);
      db := db';
    }

    /** The `enabled` part of a device update. */
    method PatchDevice(id: string, enabled: Option<bool>, now: int) returns (r: Response)
      modifies this
      ensures RequestOk(old(db), db, if enabled == Some(true) then Some(id) else None)
      ensures var at := DeviceAt(old(db).devices, id);
              && (r.Done? <==> at.Some? && old(db).devices[at.value].status.Active?
                               && (enabled == Some(true) ==> HasUsableCredential(old(db), id, now)))
              && (r.Done? && enabled.Some? ==>
                    db == old(db).(devices := old(db).devices[at.value :=
                            old(db).devices[at.value].(enabled := enabled.value, trusted := enabled.value)]))
      ensures r.Done? && enabled.None? ==> db == old(db)
      ensures r.Done? && enabled == Some(true) ==> Granted(db, id)
      ensures r.Done? && Sound(old(db)) && enabled == Some(false) ==> !Granted(db, id)
      // The credential that enabling asks for.
      ensures r.Done? && enabled == Some(true) ==>
                exists c :: c in old(db).certificates && c.deviceId == id
                              && c.status.Live? && c.brokerTrusted && now < c.validTo
      ensures r.Refused? && enabled == Some(true) && HasDevice(old(db), id) && Sound(old(db)) ==>
                || (exists d :: d in old(db).devices && d.id == id && !d.status.Active?)
                || !(exists c :: c in old(db).certificates && c.deviceId == id
                              && c.status.Live? && c.brokerTrusted && now < c.validTo)
      ensures !r.Done? ==> db == old(db)
    {
      match DeviceAt(db.devices, id)
      case None => return Refused(404);
      case Some(k) =>
        var d := db.devices[k];
        if !d.status.Active? {
          return Refused(409);
        }
        if enabled == Some(true) && !HasUsableCredential(db, id, now) {
          return Refused(409);
        }
        if enabled.Some? {
          PutDevice(k, d.(enabled := enabled.value, trusted := enabled.value),
                    if enabled == Some(true) then Some(id) else None);
          assert db.devices[k] in db.devices;
        }
        return Done;
    }

    method ApproveDevice(id: string, confirm: string, now: int) returns (r: Response)
      modifies this
      ensures RequestOk(old(db), db, Some(id))
      ensures var at := DeviceAt(old(db).devices, id);
              && (r.Done? <==> && at.Some? && old(db).devices[at.value].status.Active? && confirm == id
                               && HasUsableCredential(old(db), id, now))
              && (r.Done? ==>
                    db == old(db).(devices := old(db).devices[at.value :=
                            old(db).devices[at.value].(enabled := true, trusted := true)]))
      ensures r.Done? ==> Granted(db, id)
      ensures r.Done? ==>
                exists c :: c in old(db).certificates && c.deviceId == id
                              && c.status.Live? && c.brokerTrusted && now < c.validTo
      ensures r.Refused? && confirm == id && HasDevice(old(db), id) && Sound(old(db)) ==>
                || (exists d :: d in old(db).devices && d.id == id && !d.status.Active?)
                || !(exists c :: c in old(db).certificates && c.deviceId == id
                              && c.status.Live? && c.brokerTrusted && now < c.validTo)
      ensures !r.Done? ==> db == old(db)
    {
      match DeviceAt(db.devices, id)
      case None => return Refused(404);
      case Some(k) =>
        var d := db.devices[k];
        if !d.status.Active? {
          return Refused(404);
        }
        if confirm != id {
          return Refused(400);
        }
        if !HasUsableCredential(db, id, now) {
          return Refused(409);
        }
        PutDevice(k, d.(enabled := true, trusted := true), Some(id));
        assert db.devices[k] in db.devices;
        return Done;
    }

    method RestoreDevice(id: string) returns (r: Response)
      modifies this
      ensures RequestOk(old(db), db, None)
      ensures var at := DeviceAt(old(db).devices, id);
              && (r.Done? <==> at.Some? && old(db).devices[at.value].status.Archived?)
              && (r.Done? ==> db == old(db).(devices := old(db).devices[at.value := NewIdentity(id)]))
      ensures r.Done? ==> HasStatus(db, id, Active)
      ensures r.Done? && Sound(old(db)) ==> !Granted(db, id)
      ensures !r.Done? ==> db == old(db)
    {
      match DeviceAt(db.devices, id)
      case None => return Refused(404);
      case Some(k) =>
        var d := db.devices[k];
        if !d.status.Archived? {
          return Refused(409);
        }
        PlaceStays(db.devices, k, NewIdentity(id), id);
        PutDevice(k, d.(status := Active, enabled := false, trusted := false, deleteAt := None), None);
        return Done;
    }

    /**
     * Archives the identity, then enters its certificates in the revocation list one by one, saving
     * before and after each; the call that fails, or loses power, leaves the last saved registry.
     */
    method ArchiveDevice(id: string, confirm: string, now: int, crlFails: nat -> bool)
      returns (r: Response, ghost saved: seq<Db>)
      modifies this
      ensures RequestOk(old(db), db, None)
      ensures r.Refused? ==> db == old(db) && saved == []
      ensures var at := DeviceAt(old(db).devices, id);
              && (r.Refused? <==> !(at.Some? && confirm == id && old(db).devices[at.value].status.Active?))
              && (!r.Refused? ==> Archiving(old(db), db, at.value, now, SavedUpTo(old(db).certificates, id, crlFails)))
              && (forall b | b in saved :: Stage(old(db), b, at.value, now))
      ensures !r.Refused? ==> saved != [] && saved[|saved| - 1] == db && HasStatus(db, id, Archived)
      ensures forall b | b in saved :: RequestOk(old(db), b, None) && (Sound(old(db)) ==> !Granted(b, id))
      ensures forall b, c | b in saved && c in b.certificates && c.deviceId == id :: !c.status.Live?
      ensures !r.Refused? ==> (r.Done? <==> forall c | c in db.certificates && ToRevoke(c, id) :: !crlFails(c.id))
      ensures !r.Refused? ==>
                (r.Done? <==> forall c | c in old(db).certificates && ToRevoke(OutOfService(c, id), id) ::
                               !crlFails(c.id))
      ensures r.Done? ==> forall c | c in db.certificates && ToRevoke(c, id) :: c.status.Revoked?
      // Certificate by certificate: those of others stay, ours are revoked, imported ones are blocked.
      ensures r.Done? ==>
                && |db.certificates| == |old(db).certificates|
                && forall i | 0 <= i < |old(db).certificates| ::
                     var c, c' := old(db).certificates[i], db.certificates[i];
                     && (c.deviceId != id ==> c' == c)
                     && (c.deviceId == id && c.status.Live? ==>
                           if c.issuer.Local? || c.issuer.Legacy? then c'.status.Revoked? else c'.status.Blocked?)
    {
      saved := [];
      match DeviceAt(db.devices, id)
      case None => return Refused(404), [];
      case Some(k) =>
        if confirm != id {
          return Refused(400), [];
        }
        if !db.devices[k].status.Active? {
          return Refused(409), [];
        }
        ghost var before := db;
        TakeOutOfService(k, now);
        r, saved := RevokeArchived(before, k, id, now, crlFails);
        ArchiveEnds(before, db, k, now, crlFails);
        ToRevokeStays(before, db, k, now, SavedUpTo(before.certificates, id, crlFails), crlFails);
        StagesAreOk(before, k, now, saved);
    }

    /** The identity is archived and its live certificates are blocked, in one save. */
    method TakeOutOfService(k: nat, now: int)
      requires k < |db.devices|
      modifies this
      ensures Archiving(old(db), db, k, now, 0)
    {
      var id := db.devices[k].id;
      db := db.(devices := db.devices[k := ArchivedDevice(db.devices[k], now)]);
      ChangeCertificates((c: Certificate) => c.deviceId == id && c.status.Live?,
                         (c: Certificate) => c.(status := Blocked, archivedWithIdentity := true));
    }

    /** The loop over the certificates of the archived identity. */
    method RevokeArchived(ghost before: Db, ghost k: nat, id: string, ghost now: int, crlFails: nat -> bool)
      returns (r: Response, ghost saved: seq<Db>)
      requires Archiving(before, db, k, now, 0) && before.devices[k].id == id
      modifies this
      ensures r.Done? || r.Failed?
      ensures Archiving(before, db, k, now, SavedUpTo(before.certificates, id, crlFails))
      ensures saved != [] && saved[|saved| - 1] == db && forall b | b in saved :: Stage(before, b, k, now)
      ensures r.Done? <==> forall c | c in db.certificates && ToRevoke(c, id) :: !crlFails(c.id)
      ensures r.Done? ==> forall c | c in db.certificates && ToRevoke(c, id) :: c.status.Revoked?
    {
      saved := [db];
      for i := 0 to |db.certificates|
        invariant |db.certificates| == |before.certificates| && Archiving(before, db, k, now, i)
        invariant SavedUpTo(before.certificates, id, crlFails) == i + SavedUpTo(before.certificates[i..], id, crlFails)
        invariant saved != [] && saved[|saved| - 1] == db
        invariant forall b | b in saved :: Stage(before, b, k, now)
        invariant forall j | 0 <= j < i && ToRevoke(db.certificates[j], id) ::
                    !crlFails(db.certificates[j].id) && db.certificates[j].status.Revoked?
      {
        var c := db.certificates[i];
        SavedOneMore(before.certificates, i, id, crlFails);
        ArchivingOneMore(before, db, k, now, i, c);
        if ToRevoke(c, id) {
          if crlFails(c.id) {
            assert c in db.certificates;
            return Failed, saved;
          }
          db := db.(certificates := db.certificates[i := c.(status := Revoked)]);
          saved := saved + [db];
        }
      }
      return Done, saved;
    }

    /** Puts a revoked record in its place and disables the device, unless the revocation list spares it. */
    method Withdraw(k: nat, c: Certificate, spared: bool)
      requires k < |db.certificates| && CertificateKept(db.certificates[k], c)
      modifies this
      ensures RequestOk(old(db), db, None)
      ensures db == Db(if spared then old(db).devices else Disabled(old(db).devices, c.deviceId),
                       old(db).certificates[k := c], old(db).tombstones, old(db).trustedCas)
      ensures Sound(old(db)) && !spared ==> !Granted(db, c.deviceId)
      ensures forall d | d in old(db).devices && d.id != c.deviceId :: d in db.devices
    {
      ghost var before := db;
      DisabledTouchesOne(db.devices, c.deviceId);
      db := db.(certificates := db.certificates[k := c]);
      if !spared {
        DisableDevice(c.deviceId);
      }
      RewritingIsOk(before, db, None);
    }

    /** Revokes one certificate and disables its device. */
    method RevokeCertificate(id: nat) returns (r: Response)
      modifies this
      ensures RequestOk(old(db), db, None)
      ensures !r.Done? ==> db == old(db)
      ensures var at := CertificateAt(old(db).certificates, id);
              && (r.Done? <==> at.Some? && !old(db).certificates[at.value].status.Revoked?)
              && (r.Done? ==>
                    var c := old(db).certificates[at.value];
                    && db == Db(Disabled(old(db).devices, c.deviceId),
                                old(db).certificates[at.value := c.(status := Revoked)],
                                old(db).tombstones, old(db).trustedCas)
                    && (Sound(old(db)) ==> !Granted(db, c.deviceId))
                    && forall d | d in old(db).devices && d.id != c.deviceId :: d in db.devices)
    {
      match CertificateAt(db.certificates, id)
      case None => return Refused(404);
      case Some(k) =>
        if db.certificates[k].status.Revoked? {
          return Refused(409);
        }
        Withdraw(k, db.certificates[k].(status := Revoked), false);
        return Done;
    }

    method DisableDevice(id: string)
      modifies this
      ensures db == old(db).(devices := Disabled(old(db).devices, id)) && |db.devices| == |old(db).devices|
      ensures forall i | 0 <= i < |db.devices| :: DeviceKept(old(db).devices[i], db.devices[i], None)
      ensures (forall i, j | 0 <= i < j < |old(db).devices| :: old(db).devices[i].id != old(db).devices[j].id) ==>
                !Granted(db, id)
    {
      match DeviceAt(db.devices, id)
      case None =>
      case Some(k) => db := db.(devices := db.devices[k := db.devices[k].(enabled := false, trusted := false)]);
    }

    /** Archives or deletes a licence: the record is revoked, and the device is blocked unless the CRL does it. */
    method RemoveLicense(id: nat, phrase: bool, permanent: bool, blockedByCrl: bool) returns (r: Response)
      modifies this
      ensures RequestOk(old(db), db, None)
      ensures !r.Done? ==> db == old(db)
      ensures var at := CertificateAt(old(db).certificates, id);
              && (r.Done? <==> at.Some? && phrase && !old(db).certificates[at.value].licenseDeleted)
              && (r.Done? ==>
                    var c := old(db).certificates[at.value];
                    var listed := blockedByCrl && ManagedHere(c);
                    && db == Db(if listed then old(db).devices else Disabled(old(db).devices, c.deviceId),
                                old(db).certificates[at.value :=
                                  c.(status := Revoked, licenseArchived := true, licenseDeleted := permanent)],
                                old(db).tombstones, old(db).trustedCas)
                    && (Sound(old(db)) && !listed ==> !Granted(db, c.deviceId))
                    // Only the authority's own revocation list can spare the device.
                    && (Sound(old(db)) && (c.issuer.External? || !blockedByCrl) ==> !Granted(db, c.deviceId))
                    && (!c.issuer.External? && blockedByCrl ==> db.devices == old(db).devices)
                    && forall d | d in old(db).devices && d.id != c.deviceId :: d in db.devices)
    {
      match CertificateAt(db.certificates, id)
      case None => return Refused(404);
      case Some(k) =>
        if !phrase {
          return Refused(400);
        }
        var c := db.certificates[k];
        if c.licenseDeleted {
          return Refused(409);
        }
        var removed := c.(status := Revoked, licenseArchived := true, licenseDeleted := c.licenseDeleted || permanent);
        Withdraw(k, removed, ManagedHere(c) && blockedByCrl);
        return Done;
    }

    /** Removes an identity for good, leaving a tombstone with all its fingerprints. */
    method PermanentlyDelete(id: string) returns (found: bool)
      modifies this
      ensures RequestOk(old(db), db, None)
      ensures found <==> HasDevice(old(db), id)
      ensures !found ==> db == old(db)
      ensures found && Sound(old(db)) ==>
                && Deleted(db, id) && !HasDevice(db, id)
                && (forall f: Fingerprint ::
                      Buried(db, f) <==> Buried(old(db), f) || f in FingerprintsOf(old(db).certificates, id))
                && forall d :: d in db.devices <==> d in old(db).devices && d.id != id
      ensures found ==> db.certificates == Without(old(db).certificates, id)
      ensures db.trustedCas == old(db).trustedCas
    {
      match DeviceAt(db.devices, id)
      case None => return false;
      case Some(k) =>
        ghost var before := db;
        var tombstones := db.tombstones;
        if !(exists t | t in tombstones :: t.id == id) {
          tombstones := tombstones + [Tombstone(id, FingerprintsOf(db.certificates, id))];
        }
        db := Db(db.devices[..k] + db.devices[k + 1..], Without(db.certificates, id), tombstones, db.trustedCas);
        if Sound(before) {
          assert before.devices[k] in before.devices;
          assert db == AfterDeletion(before, k);
          BuryingIsOk(before, k);
          BuryingKeepsRecords(before, k);
          BuryingRemovesOneDevice(before, k);
        }
        return true;
    }

    method DeleteDevice(id: string, confirm: string) returns (r: Response)
      modifies this
      ensures RequestOk(old(db), db, None)
      ensures r.Done? <==> confirm == "DELETE " + id && HasDevice(old(db), id)
      ensures !r.Done? ==> db == old(db)
      ensures r.Done? && Sound(old(db)) ==>
                && Deleted(db, id) && !HasDevice(db, id)
                && (forall f: Fingerprint ::
                      Buried(db, f) <==> Buried(old(db), f) || f in FingerprintsOf(old(db).certificates, id))
                && (forall d :: d in db.devices <==> d in old(db).devices && d.id != id)
                && db.certificates == Without(old(db).certificates, id) && db.trustedCas == old(db).trustedCas
    {
      if confirm != "DELETE " + id {
        return Refused(400);
      }
      if DeviceAt(db.devices, id).None? {
        return Refused(404);
      }
      var found := PermanentlyDelete(id);
      return Done;
    }

    /**
     * Deletes every archive whose retention has passed, and nothing else. Each deletion is saved; when
     * the broker cannot be brought up to date after one, the others wait for the next time.
     */
    method PurgeExpiredArchives(now: int, fails: string -> bool) returns (r: Response)
      modifies this
      ensures RequestOk(old(db), db, None)
      ensures r.Done? || r.Failed?
      ensures Sound(old(db)) ==> forall d | d in old(db).devices ::
                if Expired(d, now) then Deleted(db, d.id) || d in db.devices else d in db.devices
      ensures r.Done? && Sound(old(db)) ==> forall d | d in old(db).devices && Expired(d, now) ::
                Deleted(db, d.id) && !HasDevice(db, d.id)
      ensures r.Done? <==> forall d | d in old(db).devices && Expired(d, now) :: !fails(d.id)
      ensures forall c | c in old(db).certificates && Spared(old(db).devices, c.deviceId, now) :: c in db.certificates
      ensures db.trustedCas == old(db).trustedCas
    {
      var devices := db.devices;
      for i := 0 to |devices|
        invariant Purged(old(db), db, devices, i, now)
        invariant forall k | 0 <= k < i && Expired(devices[k], now) :: !fails(devices[k].id)
      {
        if Expired(devices[i], now) {
          ghost var before := db;
          var found := PermanentlyDelete(devices[i].id);
          PurgedOneMore(old(db), before, db, devices, i, now);
          if fails(devices[i].id) {
            assert devices[i] in devices;
            return Failed;
          }
        }
      }
      return Done;
    }

    // ----- issuing

    /** Puts a record in front; the registry it goes into may already hold a new identity. */
    method AddRecord(db': Db, c: Certificate)
      requires RequestOk(db, db', None)
      requires c.fingerprint.Some? ==> !Known(db', c.fingerprint.value)
      requires StatusOk(c) && HasDevice(db', c.deviceId) && TrustAgrees(db', c)
      modifies this
      ensures db == db'.(certificates := [c] + db'.certificates)
      ensures RequestOk(old(db), db, None)
    {
      AddingCertificateIsOk(db', c);
      RequestsCompose(db, db', db'.(certificates := [c] + db'.certificates), None);
      db := db'.(certificates := [c] + db'.certificates);
    }

    /**
     * Signs a request for `deviceId`, or renews `previous`. The authority gives every certificate
     * it signs a serial number of its own, so its fingerprint is new.
     */
    method Issue(previous: Option<nat>, deviceId: string, csr: bool, id: nat, f: Fingerprint, validTo: int)
      returns (r: Response)
      requires !Known(db, f)
      modifies this
      ensures RequestOk(old(db), db, None)
      ensures !r.Done? ==> db == old(db)
      ensures r.Done? ==> IsLive(db, f) && !Buried(db, f)
      ensures r.Done? ==>
                var from := if previous.Some? then CertificateAt(old(db).certificates, previous.value) else None;
                && (previous.Some? ==> from.Some?)
                && var target := if from.Some? then old(db).certificates[from.value].deviceId else deviceId;
                   var trusted := from.None? || old(db).certificates[from.value].brokerTrusted;
                && (exists d | d in old(db).devices :: d.id == target && d.status.Active?)
                && db == old(db).(certificates := [Issued(id, target, f, trusted, validTo)] + old(db).certificates)
      // Exactly an active identity with a request, or a live certificate of this authority to renew.
      ensures var from := if previous.Some? then CertificateAt(old(db).certificates, previous.value) else None;
              r.Done? <==>
                && (previous.Some? ==> from.Some?)
                && var target := if from.Some? then old(db).certificates[from.value].deviceId else deviceId;
                   var at := DeviceAt(old(db).devices, target);
                && at.Some? && old(db).devices[at.value].status.Active?
                && if from.None? then csr
                   else
                     var c := old(db).certificates[from.value];
                     c.status.Live? && (c.issuer.Local? || c.issuer.Legacy?) && !c.licenseArchived && !c.licenseDeleted
      ensures r.Done? ==> 0 < |db.certificates| && db.certificates[0].fingerprint == Some(f)
                          && db.certificates[0].status.Live? && db.certificates[0].validTo == validTo
                          && db.certificates[1..] == old(db).certificates
      ensures r.Done? && previous.Some? ==> exists c | c in old(db).certificates ::
                c.id == previous.value && c.status.Live? && ManagedHere(c) && !c.licenseArchived && !c.licenseDeleted
    {
      var from: Option<Certificate> := None;
      if previous.Some? {
        match CertificateAt(db.certificates, previous.value)
        case None => return Refused(404);
        case Some(k) => from := Some(db.certificates[k]);
      }
      var target := if from.Some? then from.value.deviceId else deviceId;
      match DeviceAt(db.devices, target)
      case None => return Refused(409);
      case Some(k) =>
        if !db.devices[k].status.Active? {
          return Refused(409);
        }
        assert HasDevice(db, target) by { assert db.devices[k] in db.devices; }
        if from.Some? && (!from.value.status.Live? || from.value.licenseArchived || from.value.licenseDeleted
          || !ManagedHere(from.value)) {
          return Refused(409);
        }
        if from.None? && !csr {
          return Refused(400);
        }
        var trusted := from.None? || from.value.brokerTrusted;
        var c := Issued(id, target, f, trusted, validTo);
        AddRecord(db, c);
        assert db.certificates[0] == c && c in db.certificates;
        return Done;
    }

    /** Registers the identity if need be and issues a certificate with a key made here. */
    method Generate(deviceId: string, id: nat, f: Fingerprint, validTo: int) returns (r: Response)
      requires !Known(db, f)
      modifies this
      ensures RequestOk(old(db), db, None)
      ensures !r.Done? ==> db == old(db)
      ensures r == EnsureIdentity(old(db), deviceId, reserved).1
      ensures r.Done? ==>
                && (forall now | now < validTo :: HasUsableCredential(db, deviceId, now))
                && IsLive(db, f) && HasDevice(db, deviceId) && !Deleted(old(db), deviceId)
                && db == EnsureIdentity(old(db), deviceId, reserved).0.(certificates :=
                           [Issued(id, deviceId, f, true, validTo)] + old(db).certificates)
    {
      var (db', status) := EnsureIdentity(db, deviceId, reserved);
      if !status.Done? {
        return status;
      }
      EnsureIdentityIsOk(db, deviceId, reserved);
      var c := Issued(id, deviceId, f, true, validTo);
      AddRecord(db', c);
      assert db.certificates[0] == c && c in db.certificates;
      assert forall now | now < validTo :: Usable(c, deviceId, now);
      return Done;
    }

    method RequestExternalSignature(deviceId: string, id: nat) returns (r: Response)
      modifies this
      ensures RequestOk(old(db), db, None)
      ensures !r.Done? ==> db == old(db)
      ensures r == EnsureIdentity(old(db), deviceId, reserved).1
      ensures r.Done? ==>
                && |db.certificates| > 0 && db.certificates[0].id == id && db.certificates[0].deviceId == deviceId
                && db.certificates[0].status.PendingSignature? && !db.certificates[0].keyReceived
                && db == EnsureIdentity(old(db), deviceId, reserved).0.(certificates :=
                           [db.certificates[0]] + old(db).certificates)
    {
      var (db', status) := EnsureIdentity(db, deviceId, reserved);
      if !status.Done? {
        return status;
      }
      EnsureIdentityIsOk(db, deviceId, reserved);
      AddRecord(db', Certificate(id, deviceId, PendingSignature, External, None, None, true, 0, false, false, false,
                                 false));
      return Done;
    }

    method CancelRequest(id: nat) returns (r: Response)
      modifies this
      ensures RequestOk(old(db), db, None)
      ensures !r.Done? ==> db == old(db)
      ensures var at := CertificateAt(old(db).certificates, id);
              && (r.Done? <==> at.Some? && old(db).certificates[at.value].status.PendingSignature?)
              && (r.Done? ==>
                    db == old(db).(certificates :=
                            old(db).certificates[..at.value] + old(db).certificates[at.value + 1..]))
    {
      match CertificateAt(db.certificates, id)
      case None => return Refused(404);
      case Some(k) =>
        if !db.certificates[k].status.PendingSignature? {
          return Refused(409);
        }
        ghost var before := db;
        db := db.(certificates := db.certificates[..k] + db.certificates[k + 1..]);
        if Sound(before) {
          assert StatusOk(before.certificates[k]);
          DroppingRequestIsOk(before, k);
        }
        return Done;
    }

    method ConfirmKeyReceived(id: nat, downloaded: bool) returns (r: Response)
      modifies this
      ensures RequestOk(old(db), db, None)
      ensures var at := CertificateAt(old(db).certificates, id);
              && (r.Done? <==> at.Some? && old(db).certificates[at.value].status.PendingSignature? && downloaded)
              && (r.Done? ==>
                    db == old(db).(certificates := old(db).certificates[at.value :=
                            old(db).certificates[at.value].(keyReceived := true)]))
      ensures !r.Done? ==> db == old(db)
    {
      match CertificateAt(db.certificates, id)
      case None => return Refused(404);
      case Some(k) =>
        if !db.certificates[k].status.PendingSignature? || !downloaded {
          return Refused(409);
        }
        ghost var before := db;
        db := db.(certificates := db.certificates[k := db.certificates[k].(keyReceived := true)]);
        RewritingIsOk(before, db, None);
        return Done;
    }

    // ----- imported certificates and the authorities behind them

    /**
     * Tries the trusted authorities, then the self-signed certificates supplied along, and says
     * which one stands behind the certificate and whether it is trusted.
     */
    method JudgeIssuer(roots: seq<Fingerprint>, verifies: Fingerprint -> bool)
      returns (trusted: bool, issuer: Option<Fingerprint>)
      ensures trusted <==> exists f :: Anchor(db, caFingerprint, f) && verifies(f)
      ensures issuer.None? <==> forall f :: Anchor(db, caFingerprint, f) || f in roots ==> !verifies(f)
      ensures issuer.Some? ==> verifies(issuer.value) && (trusted <==> Anchor(db, caFingerprint, issuer.value))
    {
      var anchors := [caFingerprint] + AuthorityFingerprints(db.trustedCas);
      AnchorsAreAll(db, caFingerprint);
      var candidates := anchors + roots;
      var seen: set<Fingerprint> := {};
      trusted, issuer := false, None;
      for i := 0 to |candidates|
        invariant seen == set f | f in candidates[..i]
        invariant trusted <==> exists f :: f in candidates[..i] && f in anchors && verifies(f)
        invariant issuer.None? <==> forall f | f in candidates[..i] :: !verifies(f)
        invariant issuer.Some? ==> verifies(issuer.value) && (trusted <==> issuer.value in anchors)
      {
        var f := candidates[i];
        assert candidates[..i + 1] == candidates[..i] + [f];
        if f !in seen {
          seen := seen + {f};
          if verifies(f) {
            if f in anchors {
              trusted := true;
            }
            if issuer.None? || f in anchors {
              issuer := Some(f);
            }
          }
        }
      }
      assert candidates[..|candidates|] == candidates;
    }

    /** What the parser reports about a certificate to import. */
    method Import(pending: Option<nat>, deviceId: string, commonName: string, f: Fingerprint, validTo: int,
                  wellFormed: bool,
                  roots: seq<Fingerprint>, verifies: Fingerprint -> bool, id: nat) returns (r: Response)
      modifies this
      ensures RequestOk(old(db), db, None)
      ensures !r.Done? ==> db == old(db)
      // Exactly a new, verified certificate of the identity named, for a request whose key has been received.
      ensures var at := if pending.Some? then CertificateAt(old(db).certificates, pending.value) else None;
              r.Done? <==>
                && (pending.Some? ==> at.Some? && old(db).certificates[at.value].status.PendingSignature?
                                      && old(db).certificates[at.value].keyReceived)
                && commonName == (if at.Some? then old(db).certificates[at.value].deviceId else deviceId)
                && EnsureIdentity(old(db), commonName, reserved).1.Done?
                && wellFormed && (exists a :: (Anchor(old(db), caFingerprint, a) || a in roots) && verifies(a))
                && !Known(old(db), f)
      ensures r.Done? ==>
                && 0 < |db.certificates| && db.certificates[0].status.Live? && db.certificates[0].validTo == validTo
                && db.certificates[0].issuerFingerprint.Some? && verifies(db.certificates[0].issuerFingerprint.value)
                && db.certificates[0].issuer
                   == (if db.certificates[0].issuerFingerprint == Some(caFingerprint) then Local else External)
      ensures r.Done? && pending.Some? ==>
                var at := CertificateAt(old(db).certificates, pending.value);
                && at.Some? && |db.certificates| == |old(db).certificates| + 1
                && db.certificates[at.value + 1] == old(db).certificates[at.value].(status := SignatureCompleted)
                && forall i | 0 <= i < |old(db).certificates| && i != at.value ::
                     db.certificates[i + 1] == old(db).certificates[i]
      ensures r.Done? && pending.None? ==> db.certificates[1..] == old(db).certificates
      ensures r.Done? ==> !Known(old(db), f) && IsLive(db, f)
      ensures r.Done? ==> wellFormed && exists a :: (Anchor(old(db), caFingerprint, a) || a in roots) && verifies(a)
      ensures r.Done? ==>
                && 0 < |db.certificates| && db.certificates[0].fingerprint == Some(f)
                  && db.certificates[0].deviceId == commonName
                && (db.certificates[0].brokerTrusted <==> exists a :: Anchor(old(db), caFingerprint, a) && verifies(a))
                && db == EnsureIdentity(old(db), commonName, reserved).0.(certificates := db.certificates)
                && db.certificates[1..] == AfterImport(old(db).certificates, pending)
    {
      var position: Option<nat> := None;
      if pending.Some? {
        position := CertificateAt(db.certificates, pending.value);
        if position.None? {
          return Refused(404);
        }
        var c := db.certificates[position.value];
        if !c.status.PendingSignature? || !c.keyReceived {
          return Refused(409);
        }
      }
      var target := if position.Some? then db.certificates[position.value].deviceId else deviceId;
      var (db', status) := EnsureIdentity(db, target, reserved);
      if !status.Done? {
        return status;
      }
      if !wellFormed {
        return Failed;
      }
      var trusted, issuer := JudgeIssuer(roots, verifies);
      if issuer.None? {
        return Failed;
      }
      if commonName != target {
        return Refused(400);
      }
      if exists c | c in db.certificates :: c.fingerprint == Some(f) {
        return Refused(409);
      }
      if exists t | t in db.tombstones :: f in t.fingerprints {
        return Refused(409);
      }
      var internal := issuer == Some(caFingerprint);
      var c := Certificate(id, target, Live, if internal then Local else External, Some(f), issuer, trusted, validTo,
                           false, false, false, false);
      EnsureIdentityIsOk(db, target, reserved);
      AddImported(db', c, position);
      assert db.certificates[0] in db.certificates;
      return Done;
    }

    method AddImported(db': Db, c: Certificate, position: Option<nat>)
      requires RequestOk(db, db', None)
      requires c.fingerprint.Some? && !Known(db', c.fingerprint.value)
      requires StatusOk(c) && HasDevice(db', c.deviceId) && TrustAgrees(db', c)
      requires position.Some? ==>
                 position.value < |db'.certificates| && db'.certificates[position.value].status.PendingSignature?
      modifies this
      ensures RequestOk(old(db), db, None)
      ensures 0 < |db.certificates| && db.certificates[0] == c && db == db'.(certificates := db.certificates)
      ensures db.certificates[1..] == if position.None? then db'.certificates
                                      else db'.certificates[position.value :=
                                             db'.certificates[position.value].(status := SignatureCompleted)]
    {
      var before := db;
      AddRecord(db', c);
      if position.Some? {
        CompleteRequest(position.value + 1);
        RequestsCompose(before, db'.(certificates := [c] + db'.certificates), db, None);
      }
    }

    method CompleteRequest(k: nat)
      requires 0 < k < |db.certificates| && db.certificates[k].status.PendingSignature?
      modifies this
      ensures db == old(db).(certificates := old(db).certificates[k :=
                      old(db).certificates[k].(status := SignatureCompleted)])
      ensures RequestOk(old(db), db, None)
    {
      ghost var before := db;
      db := db.(certificates := db.certificates[k := db.certificates[k].(status := SignatureCompleted)]);
      RewritingIsOk(before, db, None);
    }

    /**
     * Trusts an authority, and with it every imported certificate it stands behind. The authority is
     * saved first; when the files of the broker cannot be rewritten then, the certificates are not.
     */
    method AddTrustedCa(f: Fingerprint, confirmed: bool, usable: bool, initFails: bool, id: nat) returns (r: Response)
      requires forall a | a in db.trustedCas :: a.id != id
      modifies this
      ensures StepOk(old(db), db, None, if db == WithAuthority(old(db), id, f) && r.Failed? then Some(f) else None)
      ensures var accepted := confirmed && usable && !TrustedAuthority(old(db), f);
              && (r.Done? <==> accepted && !initFails)
              && (!accepted ==> db == old(db))
              && (accepted && initFails ==> r.Failed? && db == WithAuthority(old(db), id, f))
      ensures r.Done? ==>
                db == WithAuthority(old(db), id, f).(certificates := AllWithTrust(old(db).certificates, f, true))
      ensures r.Done? ==> AgreesOn(db, f) && TrustedAuthority(db, f)
      ensures r.Done? ==> forall c | c in db.certificates && c.issuerFingerprint == Some(f) :: c.brokerTrusted
      ensures r.Done? ==>
                && |db.certificates| == |old(db).certificates|
                && forall i | 0 <= i < |db.certificates| && old(db).certificates[i].issuerFingerprint != Some(f) ::
                     db.certificates[i] == old(db).certificates[i]
      ensures r.Refused? ==> db == old(db)
    {
      if !confirmed {
        return Refused(400);
      }
      if !usable || exists a | a in db.trustedCas :: a.fingerprint == f {
        return Failed;
      }
      ghost var before := db;
      TornTrust(before, id, f);
      db := WithAuthority(db, id, f);
      if initFails {
        return Failed;
      }
      ghost var saved := db;
      assert saved.trustedCas[|before.trustedCas|] == Authority(id, f);
      ChangeCertificates((c: Certificate) => c.issuerFingerprint == Some(f),
                         (c: Certificate) => c.(brokerTrusted := true));
      assert db.certificates == AllWithTrust(before.certificates, f, true);
      if Sound(before) {
        assert Among(saved.trustedCas, f);
        TrustChangeIsOk(before, f, true, saved.trustedCas) by {
          forall x: Fingerprint ensures Among(saved.trustedCas, x) <==> x == f || Among(before.trustedCas, x) {
            OneMoreAuthority(before, id, f, x);
          }
        }
      }
      return Done;
    }

    /** Withdraws trust from an authority and from every imported certificate it stands behind. */
    method RemoveTrustedCa(id: nat) returns (r: Response)
      modifies this
      ensures RequestOk(old(db), db, None)
      // Even what a torn request left behind agrees again.
      ensures var at := AuthorityAt(old(db).trustedCas, id);
              r.Done? && Sound(old(db)) ==> at.Some? && AgreesOn(db, old(db).trustedCas[at.value].fingerprint)
      ensures r.Done? <==> exists a :: a in old(db).trustedCas && a.id == id
      ensures !r.Done? ==> db == old(db)
      ensures var at := AuthorityAt(old(db).trustedCas, id);
              r.Done? ==> at.Some? && db == old(db).(
                            trustedCas := old(db).trustedCas[..at.value] + old(db).trustedCas[at.value + 1..],
                            certificates := AllWithTrust(old(db).certificates, old(db).trustedCas[at.value].fingerprint,
                                                         false))
      ensures var at := AuthorityAt(old(db).trustedCas, id);
              r.Done? ==>
                && at.Some? && |db.certificates| == |old(db).certificates|
                && var f := old(db).trustedCas[at.value].fingerprint;
                   forall i | 0 <= i < |db.certificates| && old(db).certificates[i].issuerFingerprint != Some(f) ::
                     db.certificates[i] == old(db).certificates[i]
      ensures r.Done? ==> exists f: Fingerprint ::
                && Among(old(db).trustedCas, f) && (Sound(old(db)) ==> !TrustedAuthority(db, f))
                && forall c | c in db.certificates && c.issuerFingerprint == Some(f) :: !c.brokerTrusted
    {
      match AuthorityAt(db.trustedCas, id)
      case None => return Refused(404);
      case Some(k) =>
        ghost var before := db;
        var a := db.trustedCas[k];
        var f := a.fingerprint;
        assert a in before.trustedCas;
        db := db.(trustedCas := db.trustedCas[..k] + db.trustedCas[k + 1..]);
        ChangeCertificates((c: Certificate) => c.issuerFingerprint == Some(f),
                           (c: Certificate) => c.(brokerTrusted := false));
        assert db.certificates == AllWithTrust(before.certificates, f, false);
        if Sound(before) {
          RemovingAuthority(before.trustedCas, k);
          TrustChangeIsOk(before, f, false, db.trustedCas);
        }
        return Done;
    }

    predicate Used(f: Fingerprint)
      reads this
      ensures Used(f) <==> Known(db, f)
    {
      (exists c | c in db.certificates :: c.fingerprint == Some(f))
        || (exists t | t in db.tombstones :: f in t.fingerprints)
    }

    /**
     * One request. A certificate just signed has a fingerprint of its own, and a new authority a
     * random identifier: requests that would contradict this do not occur and change nothing here.
     */
    method Handle(request: Request, now: int) returns (r: Response)
      modifies this
      ensures StepOk(old(db), db, Grants(request), Torn(old(db), request))
      ensures r.Refused? ==> db == old(db)
      // A torn trust request always breaks the agreement it finds.
      ensures Tears(old(db), request) && AgreesOn(old(db), request.f) ==> !AgreesOn(db, request.f)
      ensures r.Done? <==> Acceptable(request, now, old(db), reserved, caFingerprint)
      ensures r.Done? ==> Achieved(request, now, old(db), db)
      ensures Grants(request).Some? && r.Done? ==>
                && Granted(db, Grants(request).value)
                && HasUsableCredential(old(db), Grants(request).value, now)
      ensures request.Archive? && !r.Refused? && Sound(old(db)) ==> !Granted(db, request.id)
    {
      if request.NewDevice? {
        r := CreateDevice(request.id);
      } else if request.ChangeDevice? {
        r := PatchDevice(request.id, request.enabled, now);
      } else if request.Approve? {
        r := ApproveDevice(request.id, request.confirm, now);
      } else {
        r := HandleRemoval(request, now);
      }
    }

    method HandleRemoval(request: Request, now: int) returns (r: Response)
      requires !request.NewDevice? && !request.ChangeDevice? && !request.Approve?
      modifies this
      ensures StepOk(old(db), db, None, Torn(old(db), request))
      ensures Tears(old(db), request) && AgreesOn(old(db), request.f) ==> !AgreesOn(db, request.f)
      ensures r.Refused? ==> db == old(db)
      ensures r.Done? <==> Acceptable(request, now, old(db), reserved, caFingerprint)
      ensures r.Done? ==> Achieved(request, now, old(db), db)
      ensures request.Archive? && !r.Refused? && Sound(old(db)) ==> !Granted(db, request.id)
    {
      if request.Restore? {
        r := RestoreDevice(request.id);
      } else if request.Archive? {
        ghost var saved;
        r, saved := ArchiveDevice(request.id, request.confirm, now, request.crlFails);
      } else if request.Delete? {
        r := DeleteDevice(request.id, request.confirm);
      } else {
        r := HandleRevocation(request, now);
      }
    }

    method HandleRevocation(request: Request, now: int) returns (r: Response)
      requires !request.NewDevice? && !request.ChangeDevice? && !request.Approve?
      requires !request.Restore? && !request.Archive? && !request.Delete?
      modifies this
      ensures StepOk(old(db), db, None, Torn(old(db), request))
      ensures Tears(old(db), request) && AgreesOn(old(db), request.f) ==> !AgreesOn(db, request.f)
      ensures r.Refused? ==> db == old(db)
      ensures r.Done? <==> Acceptable(request, now, old(db), reserved, caFingerprint)
      ensures r.Done? ==> Achieved(request, now, old(db), db)
    {
      if request.Purge? {
        r := PurgeExpiredArchives(now, request.fails);
      } else if request.Revoke? {
        r := RevokeCertificate(request.certificate);
      } else if request.DropLicense? {
        r := RemoveLicense(request.certificate, request.phrase, request.permanent, request.blockedByCrl);
      } else {
        r := HandleIssuing(request, now);
      }
    }

    method HandleIssuing(request: Request, now: int) returns (r: Response)
      requires || request.Sign? || request.MakeKey? || request.AskForSignature? || request.Cancel?
               || request.KeyReceived? || request.Take? || request.Trust? || request.Distrust?
      modifies this
      ensures StepOk(old(db), db, None, Torn(old(db), request))
      ensures Tears(old(db), request) && AgreesOn(old(db), request.f) ==> !AgreesOn(db, request.f)
      ensures r.Refused? ==> db == old(db)
      ensures r.Done? <==> Acceptable(request, now, old(db), reserved, caFingerprint)
      ensures r.Done? ==> Achieved(request, now, old(db), db)
    {
      r := Failed;
      if request.Sign? {
        if !Used(request.f) {
          r := Issue(request.previous, request.id, request.csr, request.certificate, request.f, request.validTo);
        }
      } else {
        r := HandleKeys(request, now);
      }
    }

    method HandleKeys(request: Request, now: int) returns (r: Response)
      requires || request.MakeKey? || request.AskForSignature? || request.Cancel? || request.KeyReceived?
               || request.Take? || request.Trust? || request.Distrust?
      modifies this
      ensures StepOk(old(db), db, None, Torn(old(db), request))
      ensures Tears(old(db), request) && AgreesOn(old(db), request.f) ==> !AgreesOn(db, request.f)
      ensures r.Refused? ==> db == old(db)
      ensures r.Done? <==> Acceptable(request, now, old(db), reserved, caFingerprint)
      ensures r.Done? ==> Achieved(request, now, old(db), db)
    {
      r := Failed;
      if request.MakeKey? {
        if !Used(request.f) {
          r := Generate(request.id, request.certificate, request.f, request.validTo);
        }
      } else if request.AskForSignature? {
        r := RequestExternalSignature(request.id, request.certificate);
      } else {
        r := HandleRecords(request, now);
      }
    }

    method HandleRecords(request: Request, now: int) returns (r: Response)
      requires request.Cancel? || request.KeyReceived? || request.Take? || request.Trust? || request.Distrust?
      modifies this
      ensures StepOk(old(db), db, None, Torn(old(db), request))
      ensures Tears(old(db), request) && AgreesOn(old(db), request.f) ==> !AgreesOn(db, request.f)
      ensures r.Refused? ==> db == old(db)
      ensures r.Done? <==> Acceptable(request, now, old(db), reserved, caFingerprint)
      ensures r.Done? ==> Achieved(request, now, old(db), db)
    {
      if request.Cancel? {
        r := CancelRequest(request.certificate);
      } else if request.KeyReceived? {
        r := ConfirmKeyReceived(request.certificate, request.downloaded);
      } else {
        r := HandleImport(request, now);
      }
    }

    method HandleImport(request: Request, now: int) returns (r: Response)
      requires request.Take? || request.Trust? || request.Distrust?
      modifies this
      ensures StepOk(old(db), db, None, Torn(old(db), request))
      ensures Tears(old(db), request) && AgreesOn(old(db), request.f) ==> !AgreesOn(db, request.f)
      ensures r.Refused? ==> db == old(db)
      ensures r.Done? <==> Acceptable(request, now, old(db), reserved, caFingerprint)
      ensures r.Done? ==> Achieved(request, now, old(db), db)
    {
      if request.Take? {
        r := Import(request.pending, request.id, request.commonName, request.f, request.validTo, request.wellFormed,
                    request.roots, request.verifies, request.certificate);
      } else {
        r := HandleTrust(request, now);
      }
    }

    method HandleTrust(request: Request, now: int) returns (r: Response)
      requires request.Trust? || request.Distrust?
      modifies this
      ensures StepOk(old(db), db, None, Torn(old(db), request))
      ensures Tears(old(db), request) && AgreesOn(old(db), request.f) ==> !AgreesOn(db, request.f)
      ensures r.Refused? ==> db == old(db)
      ensures r.Done? <==> Acceptable(request, now, old(db), reserved, caFingerprint)
      ensures r.Done? ==> Achieved(request, now, old(db), db)
    {
      r := Failed;
      match request {
        case Trust(f, confirmed, usable, initFails, id) =>
          if AuthorityAt(db.trustedCas, id).None? {
            ghost var before := db;
            r := AddTrustedCa(f, confirmed, usable, initFails, id);
            if confirmed && usable && !TrustedAuthority(before, f) {
              TornTrust(before, id, f);
            }
          }
        case Distrust(id) => r := RemoveTrustedCa(id);
      }
    }

    /**
     * Any sequence of requests at any times, failures midway included, from any sound registry such
     * as the empty one: the registry stays sound, nothing deleted or blocked comes back by itself,
     * and a device without access gets none before a request that approves or enables that very
     * device. Imported certificates carry the trust of their authority until a request tears on it.
     */
    method HandleAll(requests: seq<(Request, int)>) returns (ghost dbs: seq<Db>)
      requires Sound(db)
      modifies this
      ensures |dbs| == |requests| + 1 && dbs[0] == old(db) && dbs[|requests|] == db
      ensures Sound(db) && Run(dbs, AllGrants(requests), AllTorn(dbs, requests))
      ensures forall i, j | 0 <= i <= j <= |requests| ::
                Evolves(dbs[i], dbs[j]) && forall id | Deleted(dbs[i], id) :: !HasDevice(dbs[j], id)
      ensures forall i, j, id | 0 <= i <= j <= |requests| && !Granted(dbs[i], id) && NotGranted(requests, i, j, id) ::
                !Granted(dbs[j], id)
      ensures forall i, j, f | 0 <= i <= j <= |requests| && AgreesOn(dbs[i], f) && NotTorn(dbs, requests, i, j, f) ::
                AgreesOn(dbs[j], f)
      // Without a torn request, every registry of the run is valid if the first is.
      ensures Valid(old(db)) && (forall i | 0 <= i < |requests| :: !Tears(dbs[i], requests[i].0)) ==>
                forall i | 0 <= i <= |requests| :: Valid(dbs[i])
    {
      dbs := [db];
      for i := 0 to |requests|
        invariant Sound(db) && |dbs| == i + 1 && dbs[0] == old(db) && dbs[i] == db
        invariant forall k | 0 <= k < i ::
                    StepOk(dbs[k], dbs[k + 1], Grants(requests[k].0), Torn(dbs[k], requests[k].0))
      {
        var r := Handle(requests[i].0, requests[i].1);
        dbs := dbs + [db];
      }
      RunOfRequests(dbs, requests);
    }
  }

  lemma RunOfRequests(dbs: seq<Db>, requests: seq<(Request, int)>)
    requires |dbs| == |requests| + 1 && Sound(dbs[0])
    requires forall k | 0 <= k < |requests| ::
               StepOk(dbs[k], dbs[k + 1], Grants(requests[k].0), Torn(dbs[k], requests[k].0))
    ensures Run(dbs, AllGrants(requests), AllTorn(dbs, requests))
    ensures forall i, j | 0 <= i <= j <= |requests| ::
              Evolves(dbs[i], dbs[j]) && forall id | Deleted(dbs[i], id) :: !HasDevice(dbs[j], id)
    ensures forall i, j, id | 0 <= i <= j <= |requests| && !Granted(dbs[i], id) && NotGranted(requests, i, j, id) ::
              !Granted(dbs[j], id)
    ensures forall i, j, f | 0 <= i <= j <= |requests| && AgreesOn(dbs[i], f) && NotTorn(dbs, requests, i, j, f) ::
              AgreesOn(dbs[j], f)
    ensures Valid(dbs[0]) && (forall i | 0 <= i < |requests| :: !Tears(dbs[i], requests[i].0)) ==>
              forall i | 0 <= i <= |requests| :: Valid(dbs[i])
  {
    var grants, torn := AllGrants(requests), AllTorn(dbs, requests);
    forall i, j | 0 <= i <= j <= |requests|
      ensures Evolves(dbs[i], dbs[j]) && forall id | Deleted(dbs[i], id) :: !HasDevice(dbs[j], id)
    {
      NothingIsUndone(dbs, grants, torn, i, j);
    }
    forall i, j, id | 0 <= i <= j <= |requests| && !Granted(dbs[i], id) && NotGranted(requests, i, j, id)
      ensures !Granted(dbs[j], id)
    {
      BlockedUntilGranted(dbs, grants, torn, i, j, id);
    }
    forall i, j, f: Fingerprint | 0 <= i <= j <= |requests| && AgreesOn(dbs[i], f) && NotTorn(dbs, requests, i, j, f)
      ensures AgreesOn(dbs[j], f)
    {
      AgreesUntilTorn(dbs, grants, torn, i, j, f);
    }
    if Valid(dbs[0]) && forall i | 0 <= i < |requests| :: !Tears(dbs[i], requests[i].0) {
      forall i | 0 <= i <= |requests| ensures Valid(dbs[i]) {
        RunIsSound(dbs, grants, torn, i);
        forall f: Fingerprint ensures AgreesOn(dbs[i], f) {
          AgreesUntilTorn(dbs, grants, torn, 0, i, f);
        }
      }
    }
  }

  lemma RemovingAuthority(authorities: seq<Authority>, k: nat)
    requires k < |authorities|
    requires forall i, j | 0 <= i < j < |authorities| ::
               authorities[i].id != authorities[j].id && authorities[i].fingerprint != authorities[j].fingerprint
    ensures var rest := authorities[..k] + authorities[k + 1..];
            && (forall x: Fingerprint :: Among(rest, x) <==> (x != authorities[k].fingerprint && Among(authorities, x)))
            && forall i, j | 0 <= i < j < |rest| ::
                rest[i].id != rest[j].id && rest[i].fingerprint != rest[j].fingerprint
  {
    var rest := authorities[..k] + authorities[k + 1..];
    RemovedAt(authorities, k);
    forall x: Fingerprint ensures Among(rest, x) <==> (x != authorities[k].fingerprint && Among(authorities, x)) {
      if Among(authorities, x) && x != authorities[k].fingerprint {
        var i :| 0 <= i < |authorities| && authorities[i].fingerprint == x;
        assert authorities[i] == rest[if i < k then i else i - 1];
      }
      if Among(rest, x) {
        var i :| 0 <= i < |rest| && rest[i].fingerprint == x;
        assert rest[i] == authorities[if i < k then i else i + 1];
      }
    }
  }
}
