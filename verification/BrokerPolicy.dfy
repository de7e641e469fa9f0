/**
 * The broker's access list as `syncBroker` compiles it from the registry
 * (admin-web/src/services/certificate-service.js).
 */
module BrokerPolicy {
  import opened Outcomes
  import opened Registry
  import opened Requests

  /** One `user` paragraph and the topic patterns under it. */
  datatype Paragraph = Paragraph(user: string, readWrite: seq<string>, read: seq<string>)

  const HEALTH_USER: string := "mqtt-trust:health"

  /** The root of the probe's topics. */
  const HEALTH_TOPICS: string := "gateway:update:health"

  function AdminParagraph(reserved: string): Paragraph {
    Paragraph(reserved, ["#"], ["$SYS/#"])
  }

  function HealthParagraph(): Paragraph {
    Paragraph(HEALTH_USER, [HEALTH_TOPICS + "/#"], [])
  }

  function DeviceParagraph(id: string, prefix: string): Paragraph {
    Paragraph(id, [id + "/#", prefix + "/" + id + "/#"], [])
  }

  predicate Eligible(db: Db, d: Device, reserved: string, now: int) {
    && d.enabled && d.trusted && !d.status.Archived?
    && ValidId(d.id, reserved)
    && HasUsableCredential(db, d.id, now)
  }

  // ----- topics

  /** `topic` lies under `base`, as the pattern `base/#` matches it. */
  predicate Under(base: string, topic: string) {
    topic == base || (|base| < |topic| && topic[..|base|] == base && topic[|base|] == '/')
  }

  /**
   * What a pattern without `+` matches (MQTT 5.0, sections 4.7.1.2 and 4.7.2): `#` every topic that
   * does not start with `$`, `base/#` the topic `base` and all below it, another one only itself.
   */
  predicate Matches(pattern: string, topic: string) {
    if pattern == "#" then topic == "" || topic[0] != '$'
    else if |pattern| >= 2 && pattern[|pattern| - 2..] == "/#" then Under(pattern[..|pattern| - 2], topic)
    else topic == pattern
  }

  predicate MayWrite(p: Paragraph, topic: string) {
    exists pattern | pattern in p.readWrite :: Matches(pattern, topic)
  }

  predicate MayRead(p: Paragraph, topic: string) {
    MayWrite(p, topic) || exists pattern | pattern in p.read :: Matches(pattern, topic)
  }

  /** What the configuration accepts as the topic prefix. */
  predicate ValidPrefix(prefix: string) {
    prefix != "" && forall c | c in prefix :: NameCharacter(c)
  }

  predicate OneLevel(name: string) {
    '/' !in name
  }

  /** The two trees of a device. */
  predicate Reaches(id: string, prefix: string, topic: string) {
    Under(id, topic) || Under(prefix + "/" + id, topic)
  }

  lemma TreePattern(base: string, topic: string)
    requires base != ""
    ensures Matches(base + "/#", topic) <==> Under(base, topic)
  {
    var pattern := base + "/#";
    assert pattern[|pattern| - 2..] == "/#" && pattern[..|pattern| - 2] == base;
  }

  /** A device reads and writes exactly its own two trees. */
  lemma DeviceGrants(id: string, prefix: string, topic: string)
    requires id != ""
    ensures MayWrite(DeviceParagraph(id, prefix), topic) <==> Reaches(id, prefix, topic)
    ensures MayRead(DeviceParagraph(id, prefix), topic) <==> Reaches(id, prefix, topic)
  {
    var own, shared := id + "/#", prefix + "/" + id + "/#";
    TreePattern(id, topic);
    TreePattern(prefix + "/" + id, topic);
    assert shared == (prefix + "/" + id) + "/#";
    assert own in DeviceParagraph(id, prefix).readWrite && shared in DeviceParagraph(id, prefix).readWrite;
  }

  /** The Admin writes everything but the broker's own topics, which it reads. */
  lemma AdminGrants(reserved: string, topic: string)
    ensures MayWrite(AdminParagraph(reserved), topic) <==> topic == "" || topic[0] != '$'
    ensures MayRead(AdminParagraph(reserved), topic) <==> topic == "" || topic[0] != '$' || Under("$SYS", topic)
  {
    TreePattern("$SYS", topic);
    assert "$SYS" + "/#" == "$SYS/#";
    assert "#" in AdminParagraph(reserved).readWrite && "$SYS/#" in AdminParagraph(reserved).read;
  }

  /** The probe is confined to its own tree. */
  lemma ProbeGrants(topic: string)
    ensures MayWrite(HealthParagraph(), topic) <==> Under("gateway:update:health", topic)
    ensures MayRead(HealthParagraph(), topic) <==> Under("gateway:update:health", topic)
  {
    TreePattern(HEALTH_TOPICS, topic);
    assert HEALTH_TOPICS + "/#" in HealthParagraph().readWrite;
  }

  /** The users of a compiled list besides the Admin and the probe are devices that may connect now. */
  ghost predicate ListsDevices(acl: seq<Paragraph>, db: Db, reserved: string, now: int) {
    forall p | p in acl && p.user != reserved && p.user != HEALTH_USER ::
      exists d, c | d in db.devices && c in db.certificates ::
        && d.id == p.user && ValidId(p.user, reserved) && d.enabled && d.trusted && d.status.Active?
        && c.deviceId == d.id && c.status.Live? && c.brokerTrusted && now < c.validTo
  }

  /** What a user is granted: everything, the tree of the probe, or the two trees of a device. */
  predicate GrantsAs(p: Paragraph, reserved: string, prefix: string, topic: string) {
    if p.user == reserved then
      && (MayWrite(p, topic) <==> topic == "" || topic[0] != '$')
      && (MayRead(p, topic) <==> topic == "" || topic[0] != '$' || Under("$SYS", topic))
    else if p.user == HEALTH_USER then
      && (MayWrite(p, topic) <==> Under(HEALTH_TOPICS, topic))
      && (MayRead(p, topic) <==> Under(HEALTH_TOPICS, topic))
    else
      && (MayWrite(p, topic) <==> Under(p.user, topic) || Under(prefix + "/" + p.user, topic))
      && (MayRead(p, topic) <==> MayWrite(p, topic))
  }

  ghost predicate GrantsExactly(acl: seq<Paragraph>, reserved: string, prefix: string) {
    forall p, topic | p in acl :: GrantsAs(p, reserved, prefix, topic)
  }

  lemma ParagraphGrants(p: Paragraph, reserved: string, prefix: string, topic: string)
    requires reserved != HEALTH_USER
    requires || p == AdminParagraph(reserved) || p == HealthParagraph()
             || (p == DeviceParagraph(p.user, prefix) && p.user != "")
    requires p.user == reserved ==> p == AdminParagraph(reserved)
    requires p.user == HEALTH_USER ==> p == HealthParagraph()
    ensures GrantsAs(p, reserved, prefix, topic)
  {
    if p.user == reserved {
      AdminGrants(reserved, topic);
    } else if p.user == HEALTH_USER {
      ProbeGrants(topic);
    } else {
      DeviceGrants(p.user, prefix, topic);
    }
  }

  /** Compiles the list; a device without access is skipped, whatever else the registry holds. */
  method CompileAcl(db: Db, reserved: string, prefix: string, healthClient: bool, now: int)
    returns (acl: seq<Paragraph>)
    ensures forall p :: p in acl <==>
              || p == AdminParagraph(reserved)
              || (healthClient && p == HealthParagraph())
              || exists d | d in db.devices :: Eligible(db, d, reserved, now) && p == DeviceParagraph(d.id, prefix)
    // One paragraph a device, in the order of the registry.
    ensures Sound(db) ==> forall i, j | 0 <= i < j < |acl| && acl[i].user == acl[j].user ::
              acl[i].user == reserved || acl[i].user == HEALTH_USER
    // Who is listed, and with which topics.
    ensures ListsDevices(acl, db, reserved, now)
    ensures forall d, c | d in db.devices && c in db.certificates && ValidId(d.id, reserved)
                          && d.enabled && d.trusted && d.status.Active?
                          && c.deviceId == d.id && c.status.Live? && c.brokerTrusted && now < c.validTo ::
              exists p :: p in acl && p.user == d.id
    ensures reserved != HEALTH_USER ==> GrantsExactly(acl, reserved, prefix)
  {
    acl := [AdminParagraph(reserved)];
    if healthClient {
      acl := acl + [HealthParagraph()];
    }
    for i := 0 to |db.devices|
      invariant forall p :: p in acl <==>
                  || p == AdminParagraph(reserved)
                  || (healthClient && p == HealthParagraph())
                  || exists d | d in db.devices[..i] ::
                      Eligible(db, d, reserved, now) && p == DeviceParagraph(d.id, prefix)
      invariant forall k | 0 <= k < |acl| ::
                  acl[k].user == reserved || acl[k].user == HEALTH_USER
                  || exists d | d in db.devices[..i] :: d.id == acl[k].user
      invariant Sound(db) ==> forall k, l | 0 <= k < l < |acl| && acl[k].user == acl[l].user ::
                  acl[k].user == reserved || acl[k].user == HEALTH_USER
    {
      var d := db.devices[i];
      assert db.devices[..i + 1] == db.devices[..i] + [d];
      if Eligible(db, d, reserved, now) {
        acl := acl + [DeviceParagraph(d.id, prefix)];
      }
    }
    assert db.devices[..|db.devices|] == db.devices;
    Compiled(acl, db, reserved, prefix, healthClient, now);
  }

  /** What the membership of a list says about it. */
  lemma Compiled(acl: seq<Paragraph>, db: Db, reserved: string, prefix: string, healthClient: bool, now: int)
    requires forall p :: p in acl <==>
               || p == AdminParagraph(reserved)
               || (healthClient && p == HealthParagraph())
               || exists d | d in db.devices :: Eligible(db, d, reserved, now) && p == DeviceParagraph(d.id, prefix)
    ensures ListsDevices(acl, db, reserved, now)
    ensures forall d, c | d in db.devices && c in db.certificates && ValidId(d.id, reserved)
                          && d.enabled && d.trusted && d.status.Active?
                          && c.deviceId == d.id && c.status.Live? && c.brokerTrusted && now < c.validTo ::
              exists p :: p in acl && p.user == d.id
    ensures reserved != HEALTH_USER ==> GrantsExactly(acl, reserved, prefix)
  {
    forall p | p in acl && p.user != reserved && p.user != HEALTH_USER
      ensures exists d, c | d in db.devices && c in db.certificates ::
                && d.id == p.user && ValidId(p.user, reserved) && d.enabled && d.trusted && d.status.Active?
                && c.deviceId == d.id && c.status.Live? && c.brokerTrusted && now < c.validTo
    {
      var d :| d in db.devices && Eligible(db, d, reserved, now) && p == DeviceParagraph(d.id, prefix);
      var c :| c in db.certificates && Usable(c, d.id, now);
    }
    forall d, c | d in db.devices && c in db.certificates && ValidId(d.id, reserved)
                  && d.enabled && d.trusted && d.status.Active?
                  && c.deviceId == d.id && c.status.Live? && c.brokerTrusted && now < c.validTo
      ensures exists p :: p in acl && p.user == d.id
    {
      assert Usable(c, d.id, now);
      assert DeviceParagraph(d.id, prefix) in acl && DeviceParagraph(d.id, prefix).user == d.id;
    }
    if reserved != HEALTH_USER {
      ProbeNames();
      forall p, topic | p in acl ensures GrantsAs(p, reserved, prefix, topic) {
        ParagraphGrants(p, reserved, prefix, topic);
      }
    }
  }

  lemma LongerHasSlash(a: string, b: string, topic: string)
    requires Under(a, topic) && Under(b, topic) && |a| < |b|
    ensures !OneLevel(b)
  {
    assert b == topic[..|b|];
    assert b[|a|] == topic[|a|];
  }

  lemma OneLevelDecides(a: string, b: string, topic: string)
    requires OneLevel(a) && OneLevel(b) && Under(a, topic) && Under(b, topic)
    ensures a == b
  {
    if |a| < |b| {
      LongerHasSlash(a, b, topic);
    } else if |b| < |a| {
      LongerHasSlash(b, a, topic);
    } else {
      assert a == topic[..|a|] == b;
    }
  }

  /** Below a prefix of one level lies only what is under that level, and the rest is decided by the next. */
  lemma BelowPrefix(prefix: string, id: string, topic: string)
    requires Under(prefix + "/" + id, topic)
    ensures Under(prefix, topic) && |prefix| < |topic| && Under(id, topic[|prefix| + 1..])
  {
    var base := prefix + "/" + id;
    assert base[..|prefix|] == prefix && base[|prefix|] == '/' && base[|prefix| + 1..] == id;
    assert topic[..|base|] == base;
    assert topic[..|prefix|] == topic[..|base|][..|prefix|];
    assert topic[|prefix|] == topic[..|base|][|prefix|];
    var rest := topic[|prefix| + 1..];
    assert rest[..|id|] == topic[..|base|][|prefix| + 1..];
    if topic != base {
      assert rest[|id|] == topic[|base|];
    } else {
      assert rest == id;
    }
  }

  /**
   * Two devices have no topic in common if and only if neither bears the name of the topic prefix,
   * whose own tree holds the trees of all devices.
   */
  lemma TopicsAreSeparate(a: string, b: string, prefix: string)
    requires OneLevel(a) && OneLevel(b) && OneLevel(prefix) && a != b
    ensures (forall topic :: !(Reaches(a, prefix, topic) && Reaches(b, prefix, topic))) <==> a != prefix && b != prefix
  {
    forall topic | Reaches(a, prefix, topic) && Reaches(b, prefix, topic) ensures a == prefix || b == prefix {
      if Under(a, topic) && Under(b, topic) {
        OneLevelDecides(a, b, topic);
      } else if Under(a, topic) {
        BelowPrefix(prefix, b, topic);
        OneLevelDecides(a, prefix, topic);
      } else if Under(b, topic) {
        BelowPrefix(prefix, a, topic);
        OneLevelDecides(b, prefix, topic);
      } else {
        BelowPrefix(prefix, a, topic);
        BelowPrefix(prefix, b, topic);
        OneLevelDecides(a, b, topic[|prefix| + 1..]);
      }
    }
    if a == prefix || b == prefix {
      var topic := prefix + "/" + if a == prefix then b else a;
      assert topic[..|prefix|] == prefix && topic[|prefix|] == '/';
      assert Reaches(a, prefix, topic) && Reaches(b, prefix, topic);
    }
  }

  /** With the default prefix, a device may be named like it, and then reaches what another device publishes. */
  lemma DeviceNamedLikeThePrefix(reserved: string, prefix: string, other: string, topic: string)
    requires reserved == "mqtt-trust-admin" && prefix == "devices" && other == "sensor"
             && topic == "devices/sensor/state"
    ensures ValidId("devices", reserved) && ValidId(other, reserved)
    ensures Reaches("devices", prefix, topic) && Reaches(other, prefix, topic)
  {
    assert "devices"[0] != reserved[0] && other[0] != reserved[0];
    assert topic[..7] == "devices" && topic[..14] == prefix + "/" + other;
  }

  /** The first level of every topic in a device's reach. */
  lemma FirstLevel(id: string, prefix: string, first: string, topic: string)
    requires OneLevel(id) && OneLevel(prefix) && OneLevel(first)
    requires Reaches(id, prefix, topic) && Under(first, topic)
    ensures first == id || first == prefix
  {
    if Under(id, topic) {
      OneLevelDecides(first, id, topic);
    } else {
      BelowPrefix(prefix, id, topic);
      OneLevelDecides(first, prefix, topic);
    }
  }

  lemma ProbeNames()
    ensures OneLevel(HEALTH_TOPICS) && ':' in HEALTH_TOPICS && ':' in HEALTH_USER
    ensures OneLevel("$SYS") && '$' in "$SYS"
  {
    assert HEALTH_TOPICS[7] == ':' && HEALTH_USER[10] == ':' && "$SYS"[0] == '$';
  }

  lemma DeviceTopics(id: string, reserved: string, prefix: string, topic: string)
    requires ValidId(id, reserved) && ValidPrefix(prefix) && Reaches(id, prefix, topic)
    ensures OneLevel(id) && OneLevel(prefix) && !Under(HEALTH_TOPICS, topic) && !Under("$SYS", topic)
  {
    ProbeNames();
    if Under(HEALTH_TOPICS, topic) {
      FirstLevel(id, prefix, HEALTH_TOPICS, topic);
    }
    if Under("$SYS", topic) {
      FirstLevel(id, prefix, "$SYS", topic);
    }
  }

  /** A device's paragraph is never the Admin's or the probe's, and reaches neither the probe's topics nor `$SYS`. */
  lemma DeviceParagraphsAreTheirOwn(db: Db, d: Device, reserved: string, prefix: string, now: int, topic: string)
    requires Eligible(db, d, reserved, now) && ValidPrefix(prefix) && Reaches(d.id, prefix, topic)
    ensures d.id != reserved && d.id != HEALTH_USER
    ensures !Under(HEALTH_TOPICS, topic) && !Under("$SYS", topic)
  {
    ProbeNames();
    DeviceTopics(d.id, reserved, prefix, topic);
  }

  predicate IsDevice(p: Paragraph, reserved: string) {
    p.user != reserved && p.user != HEALTH_USER
  }

  /**
   * In a compiled list no device reads the probe's topics or the broker's own, and two devices have a
   * topic in common only if one of them is named like the prefix.
   */
  lemma ListKeepsDevicesApart(acl: seq<Paragraph>, db: Db, reserved: string, prefix: string, now: int)
    requires ListsDevices(acl, db, reserved, now) && GrantsExactly(acl, reserved, prefix) && ValidPrefix(prefix)
    ensures forall p, topic | p in acl && IsDevice(p, reserved) && MayRead(p, topic) ::
              !Under(HEALTH_TOPICS, topic) && !Under("$SYS", topic)
    ensures forall p, q, topic | p in acl && q in acl && IsDevice(p, reserved) && IsDevice(q, reserved)
                                 && p.user != q.user && MayRead(p, topic) && MayRead(q, topic) ::
              p.user == prefix || q.user == prefix
  {
    forall p, topic | p in acl && IsDevice(p, reserved) && MayRead(p, topic)
      ensures !Under(HEALTH_TOPICS, topic) && !Under("$SYS", topic)
      ensures Reaches(p.user, prefix, topic) && OneLevel(p.user)
    {
      assert GrantsAs(p, reserved, prefix, topic);
      DeviceTopics(p.user, reserved, prefix, topic);
    }
    forall p, q, topic | p in acl && q in acl && IsDevice(p, reserved) && IsDevice(q, reserved)
                         && p.user != q.user && MayRead(p, topic) && MayRead(q, topic)
      ensures p.user == prefix || q.user == prefix
    {
      TopicsAreSeparate(p.user, q.user, prefix);
      assert Reaches(p.user, prefix, topic) && Reaches(q.user, prefix, topic);
    }
  }

  /**
   * After an archive, a revocation or a deletion, the device is in no access list compiled at any
   * time, until a request approves or enables that very device.
   */
  lemma OutOfEveryAclUntilGranted(dbs: seq<Db>, grants: seq<Option<string>>, torn: seq<Option<Fingerprint>>,
                                  i: nat, j: nat, id: string, reserved: string, now: int)
    requires Run(dbs, grants, torn) && i <= j < |dbs|
    requires !Granted(dbs[i], id)
    requires forall k | i <= k < j :: grants[k] != Some(id)
    ensures forall d | d in dbs[j].devices && d.id == id :: !Eligible(dbs[j], d, reserved, now)
  {
    BlockedUntilGranted(dbs, grants, torn, i, j, id);
  }

  /**
   * Serves any sequence of requests and compiles the list after each. A device that has no access
   * when it starts has no paragraph in any of them before a request that approves or enables it.
   */
  method Serve(gateway: Gateway, requests: seq<(Request, int)>, prefix: string, healthClient: bool)
    returns (lists: seq<seq<Paragraph>>)
    requires Sound(gateway.db)
    modifies gateway
    ensures Sound(gateway.db) && |lists| == |requests|
    ensures forall id, j, p | !Granted(old(gateway.db), id) && 0 <= j < |lists| && NotGranted(requests, 0, j + 1, id)
            && p in lists[j] ::
              p.user != id || id == gateway.reserved || id == HEALTH_USER
  {
    lists := [];
    for i := 0 to |requests|
      invariant Sound(gateway.db) && |lists| == i
      invariant forall id | !Granted(old(gateway.db), id) && NotGranted(requests, 0, i, id) :: !Granted(gateway.db, id)
      invariant forall id, j, p | !Granted(old(gateway.db), id) && 0 <= j < i && NotGranted(requests, 0, j + 1, id)
                && p in lists[j] ::
                  p.user != id || id == gateway.reserved || id == HEALTH_USER
    {
      var r := gateway.Handle(requests[i].0, requests[i].1);
      var acl := CompileAcl(gateway.db, gateway.reserved, prefix, healthClient, requests[i].1);
      forall id, p | !Granted(old(gateway.db), id) && NotGranted(requests, 0, i + 1, id) && p in acl
        ensures p.user != id || id == gateway.reserved || id == HEALTH_USER
      {
        assert NotGranted(requests, 0, i, id);
      }
      lists := lists + [acl];
    }
  }
}
