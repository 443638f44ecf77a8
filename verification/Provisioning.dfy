/** Registering and revoking devices: the devices table, the broker's Dynamic Security accounts,
    and Add and Revoke runs that may be cut off at any call. */
module Provisioning {
  import opened Common
  import opened Text
  import opened Topics
  import opened DeviceConfig

  datatype Acl =
    | SubscribeLiteral(topic: string)
    | PublishClientReceive(topic: string)
    | PublishClientSend(topic: string)

  datatype Login = Login(password: string, enabled: bool, roles: set<string>)

  datatype Device = Device(merchant: string, topic: string, active: bool)

  datatype World = World(devices: map<string, Device>, roles: map<string, set<Acl>>, logins: map<string, Login>)

  /** A merchants row: its key and its Manjo merchant ID. */
  datatype Merchant = Merchant(id: string, manjoId: string)

  datatype Err = Ok | AlreadyExists | NotFound | Failure

  function RoleOf(user: string): string {
    "device-" + user
  }

  function RoleName(merchant: string, sn: string): string {
    RoleOf(Username(merchant, sn))
  }

  function DeviceAcls(merchant: string, sn: string): set<Acl> {
    {SubscribeLiteral(DeviceTopic(merchant, sn)), PublishClientReceive(DeviceTopic(merchant, sn)),
     PublishClientSend(DeviceRequestTopic(merchant, sn))}
  }

  predicate ValidDevice(merchant: string, sn: string) {
    ValidId(merchant, MAX_MERCHANT_ID) && ValidId(sn, MAX_SN)
  }

  // ----- one call to the database or the broker -------------------------------------------

  datatype Command =
    | InsertDevice(sn: string, merchant: string, topic: string)
    | SetStatus(sn: string, active: bool)
    | CreateRole(role: string)
    | AddRoleAcl(role: string, acl: Acl)
    | DeleteRole(role: string)
    | CreateLogin(user: string, password: string, role: string)
    | SetPassword(user: string, password: string)
    | Enable(user: string)
    | Disable(user: string)
    | DeleteLogin(user: string)
    | AddLoginRole(user: string, role: string)

  /** What a command answers when it is executed. */
  function Answer(w: World, c: Command): Err {
    match c
    case InsertDevice(sn, _, topic) =>
      if sn in w.devices || TopicTaken(w, topic) then Failure else Ok
    case SetStatus(_, _) => Ok
    case CreateRole(r) => if r in w.roles then AlreadyExists else Ok
    case AddRoleAcl(r, acl) => if r !in w.roles then NotFound else if acl in w.roles[r] then AlreadyExists else Ok
    case DeleteRole(r) => if r in w.roles then Ok else NotFound
    case CreateLogin(u, _, r) => if u in w.logins then AlreadyExists else if r !in w.roles then NotFound else Ok
    case SetPassword(u, _) => if u in w.logins then Ok else NotFound
    case Enable(u) => if u in w.logins then Ok else NotFound
    case Disable(u) => if u in w.logins then Ok else NotFound
    case DeleteLogin(u) => if u in w.logins then Ok else NotFound
    case AddLoginRole(u, r) =>
      if u !in w.logins || r !in w.roles then NotFound else if r in w.logins[u].roles then Failure else Ok
  }

  function Exec(w: World, c: Command): World {
    if Answer(w, c) != Ok then w
    else
      match c
      case InsertDevice(sn, merchant, topic) => w.(devices := w.devices[sn := Device(merchant, topic, true)])
      case SetStatus(sn, active) =>
        if sn in w.devices then w.(devices := w.devices[sn := w.devices[sn].(active := active)]) else w
      case CreateRole(r) => w.(roles := w.roles[r := {}])
      case AddRoleAcl(r, acl) => w.(roles := w.roles[r := w.roles[r] + {acl}])
      case DeleteRole(r) =>
        w.(roles := w.roles - {r},
           logins := map u | u in w.logins :: w.logins[u].(roles := w.logins[u].roles - {r}))
      case CreateLogin(u, password, r) => w.(logins := w.logins[u := Login(password, true, {r})])
      case SetPassword(u, password) => w.(logins := w.logins[u := w.logins[u].(password := password)])
      case Enable(u) => w.(logins := w.logins[u := w.logins[u].(enabled := true)])
      case Disable(u) => w.(logins := w.logins[u := w.logins[u].(enabled := false)])
      case DeleteLogin(u) => w.(logins := w.logins - {u})
      case AddLoginRole(u, r) => w.(logins := w.logins[u := w.logins[u].(roles := w.logins[u].roles + {r})])
  }

  /** A call can be answered, fail without effect, or take effect and lose its answer. */
  datatype Fate = Answered | NotExecuted | AnswerLost

  // ----- what belongs to one device -------------------------------------------------------

  /** Every device role holds at most its own ACLs and is held by at most its own login. */
  ghost predicate Valid(w: World) {
    && (forall m, sn :: ValidDevice(m, sn) && RoleName(m, sn) in w.roles ==>
                        w.roles[RoleName(m, sn)] <= DeviceAcls(m, sn))
    && (forall u, x :: u in w.logins && RoleOf(x) in w.logins[u].roles ==> u == x)
  }

  predicate RowReady(w: World, merchantId: string, sn: string) {
    sn in w.devices && w.devices[sn].merchant == merchantId && w.devices[sn].active
  }

  predicate RoleReady(w: World, merchant: string, sn: string) {
    RoleName(merchant, sn) in w.roles && w.roles[RoleName(merchant, sn)] == DeviceAcls(merchant, sn)
  }

  predicate LoginReady(w: World, merchant: string, sn: string, password: string) {
    && Username(merchant, sn) in w.logins
    && w.logins[Username(merchant, sn)] == Login(password, true, w.logins[Username(merchant, sn)].roles)
    && RoleName(merchant, sn) in w.logins[Username(merchant, sn)].roles
  }

  predicate Provisioned(w: World, merchantId: string, merchant: string, sn: string, password: string) {
    RowReady(w, merchantId, sn) && RoleReady(w, merchant, sn) && LoginReady(w, merchant, sn, password)
  }

  predicate LoginStopped(w: World, merchant: string, sn: string) {
    Username(merchant, sn) in w.logins ==> !w.logins[Username(merchant, sn)].enabled
  }

  /** What Revoke leaves: no active row and no working login, and with `remove` no login or role at all. */
  predicate Stopped(w: World, merchant: string, sn: string, remove: bool) {
    && (sn in w.devices ==> !w.devices[sn].active) && LoginStopped(w, merchant, sn)
    && (remove ==> Username(merchant, sn) !in w.logins && RoleName(merchant, sn) !in w.roles)
  }

  /** The role allows hearing its own announcements and sending its own requests, and nothing else. */
  ghost predicate OwnTopicsOnly(acls: set<Acl>, merchant: string, sn: string) {
    && (forall t :: SubscribeLiteral(t) in acls <==> t == DeviceTopic(merchant, sn))
    && (forall t :: PublishClientReceive(t) in acls <==> t == DeviceTopic(merchant, sn))
    && (forall t :: PublishClientSend(t) in acls <==> t == DeviceRequestTopic(merchant, sn))
  }

  /** An enabled login holds a device role that allows this. */
  predicate Permitted(w: World, user: string, acl: Acl) {
    && user in w.logins && w.logins[user].enabled
    && exists r :: r in w.logins[user].roles && HasPrefix(r, "device-") && r in w.roles && acl in w.roles[r]
  }

  predicate HasPrefix(s: string, p: string) { |p| <= |s| && s[..|p|] == p }

  ghost predicate SameAt<K, V>(a: map<K, V>, b: map<K, V>, k: K) {
    (k in a <==> k in b) && (k in a ==> a[k] == b[k])
  }

  /** Nothing but this device's row, role and login differs. */
  ghost predicate OnlyTouches(was: World, now: World, merchant: string, sn: string) {
    && (forall d :: d != sn ==> SameAt(was.devices, now.devices, d))
    && (forall r :: r != RoleName(merchant, sn) ==> SameAt(was.roles, now.roles, r))
    && (forall u :: u != Username(merchant, sn) ==> SameAt(was.logins, now.logins, u))
  }

  /** A validated device shares its login or its role with no other device, validated or not. */
  lemma NamesInjective(m1: string, sn1: string, m2: string, sn2: string)
    requires ValidDevice(m1, sn1)
    requires Username(m1, sn1) == Username(m2, sn2) || RoleName(m1, sn1) == RoleName(m2, sn2)
    ensures m1 == m2 && sn1 == sn2
  {
    NoSeparator(m1, '-');
    NoSeparator(sn1, '-');
    if RoleName(m1, sn1) == RoleName(m2, sn2) {
      DropPrefix("device-", Username(m1, sn1), Username(m2, sn2));
    }
    var u := m1 + "-" + sn1;
    assert u == m2 + "-" + sn2;
    assert u[|m2|] == '-';
    assert forall k :: 0 <= k < |u| && u[k] == '-' ==> k == |m1|;
    assert |m1| == |m2|;
    assert m1 == u[..|m1|] == m2;
    DropPrefix(m1 + "-", sn1, sn2);
  }

  /** The commands Add and Revoke send for one device. */
  predicate Owns(c: Command, merchant: string, sn: string) {
    match c
    case InsertDevice(d, _, _) => d == sn
    case SetStatus(d, _) => d == sn
    case CreateRole(r) => r == RoleName(merchant, sn)
    case AddRoleAcl(r, acl) => r == RoleName(merchant, sn) && acl in DeviceAcls(merchant, sn)
    case DeleteRole(r) => r == RoleName(merchant, sn)
    case CreateLogin(u, _, r) => u == Username(merchant, sn) && r == RoleName(merchant, sn)
    case SetPassword(u, _) => u == Username(merchant, sn)
    case Enable(u) => u == Username(merchant, sn)
    case Disable(u) => u == Username(merchant, sn)
    case DeleteLogin(u) => u == Username(merchant, sn)
    case AddLoginRole(u, r) => u == Username(merchant, sn) && r == RoleName(merchant, sn)
  }

  /** A device's own command keeps every device's accounts in order and leaves the others alone. */
  lemma OwnCommandKeeps(w: World, c: Command, merchant: string, sn: string)
    requires Valid(w) && Owns(c, merchant, sn)
    ensures Valid(Exec(w, c)) && OnlyTouches(w, Exec(w, c), merchant, sn)
  {
    var n := Exec(w, c);
    forall m, d | ValidDevice(m, d) && RoleName(m, d) in n.roles
      ensures n.roles[RoleName(m, d)] <= DeviceAcls(m, d)
    {
      if RoleName(m, d) == RoleName(merchant, sn) { NamesInjective(m, d, merchant, sn); }
    }
    forall u, x | u in n.logins && RoleOf(x) in n.logins[u].roles
      ensures u == x
    {
      if RoleOf(x) == RoleName(merchant, sn) { DropPrefix("device-", x, Username(merchant, sn)); }
    }
    forall u | u != Username(merchant, sn) ensures SameAt(w.logins, n.logins, u) {
      if c.DeleteRole? && u in w.logins {
        assert RoleOf(Username(merchant, sn)) !in w.logins[u].roles;
      }
    }
  }

  lemma TouchesTwice(a: World, b: World, c: World, merchant: string, sn: string)
    requires OnlyTouches(a, b, merchant, sn) && OnlyTouches(b, c, merchant, sn)
    ensures OnlyTouches(a, c, merchant, sn)
  {
    forall d | d != sn ensures SameAt(a.devices, c.devices, d) {
      assert SameAt(a.devices, b.devices, d) && SameAt(b.devices, c.devices, d);
    }
    forall r | r != RoleName(merchant, sn) ensures SameAt(a.roles, c.roles, r) {
      assert SameAt(a.roles, b.roles, r) && SameAt(b.roles, c.roles, r);
    }
    forall u | u != Username(merchant, sn) ensures SameAt(a.logins, c.logins, u) {
      assert SameAt(a.logins, b.logins, u) && SameAt(b.logins, c.logins, u);
    }
  }

  /** What is done for one device leaves every other validated device as it was. */
  lemma OthersUntouched(was: World, now: World, merchant: string, sn: string, m: string, d: string)
    requires OnlyTouches(was, now, merchant, sn) && ValidDevice(m, d) && d != sn
    ensures forall id, password :: Provisioned(was, id, m, d, password) <==> Provisioned(now, id, m, d, password)
    ensures d in was.devices <==> d in now.devices
    ensures forall remove :: Stopped(was, m, d, remove) <==> Stopped(now, m, d, remove)
  {
    if Username(m, d) == Username(merchant, sn) || RoleName(m, d) == RoleName(merchant, sn) {
      NamesInjective(m, d, merchant, sn);
    }
    assert SameAt(was.devices, now.devices, d);
    assert SameAt(was.roles, now.roles, RoleName(m, d));
    assert SameAt(was.logins, now.logins, Username(m, d));
  }

  /** The role holds the three ACLs that the firmware's two topics need. */
  lemma ReadyRoleIsOwn(w: World, merchant: string, sn: string)
    requires RoleReady(w, merchant, sn)
    ensures OwnTopicsOnly(w.roles[RoleName(merchant, sn)], merchant, sn)
  {
  }

  lemma DeviceRole(w: World, user: string, r: string)
    requires Valid(w) && user in w.logins && r in w.logins[user].roles && HasPrefix(r, "device-")
    ensures r == RoleOf(user)
  {
    assert r == RoleOf(r[|"device-"|..]);
  }

  lemma StoppedMayNothing(w: World, merchant: string, sn: string)
    ensures LoginStopped(w, merchant, sn) ==> forall acl :: !Permitted(w, Username(merchant, sn), acl)
  {
  }

  /** A provisioned device's login may hear its announcements and send its requests, and nothing else. */
  lemma ProvisionedMay(w: World, merchantId: string, merchant: string, sn: string, password: string, t: string)
    requires Valid(w) && Provisioned(w, merchantId, merchant, sn, password)
    ensures var user := Username(merchant, sn);
            && (Permitted(w, user, SubscribeLiteral(t)) <==> t == DeviceTopic(merchant, sn))
            && (Permitted(w, user, PublishClientReceive(t)) <==> t == DeviceTopic(merchant, sn))
            && (Permitted(w, user, PublishClientSend(t)) <==> t == DeviceRequestTopic(merchant, sn))
  {
    hide DeviceAcls, DeviceTopic, DeviceRequestTopic, Valid;
    var user, role := Username(merchant, sn), RoleName(merchant, sn);
    ReadyRoleIsOwn(w, merchant, sn);
    assert role[..|"device-"|] == "device-";
    assert HasPrefix(role, "device-");
    forall r | r in w.logins[user].roles && HasPrefix(r, "device-") ensures r == role { DeviceRole(w, user, r); }
  }

  /** Whatever runs came before, no validated device's login may hear another's announcements, send on
      another's request topic, or announce anything at all. */
  lemma NoOtherMay(w: World, merchant: string, sn: string, m: string, d: string)
    requires Valid(w) && ValidDevice(merchant, sn) && ValidDevice(m, d) && !(m == merchant && d == sn)
    ensures !Permitted(w, Username(m, d), SubscribeLiteral(DeviceTopic(merchant, sn)))
    ensures !Permitted(w, Username(m, d), PublishClientReceive(DeviceTopic(merchant, sn)))
    ensures !Permitted(w, Username(m, d), PublishClientSend(DeviceRequestTopic(merchant, sn)))
    ensures !Permitted(w, Username(m, d), PublishClientSend(DeviceTopic(merchant, sn)))
  {
    hide DeviceTopic, DeviceRequestTopic, ValidId;
    var user := Username(m, d);
    if DeviceTopic(m, d) == DeviceTopic(merchant, sn) || DeviceRequestTopic(m, d) == DeviceRequestTopic(merchant, sn) {
      TopicsInjective(m, d, merchant, sn);
    }
    TopicKinds(merchant, sn, m, d);
    if user in w.logins {
      forall r | r in w.logins[user].roles && HasPrefix(r, "device-") ensures r == RoleName(m, d) {
        DeviceRole(w, user, r);
      }
    }
  }

  lemma TopicKinds(m1: string, sn1: string, m2: string, sn2: string)
    ensures DeviceTopic(m1, sn1) != DeviceRequestTopic(m2, sn2)
  {
    assert DeviceTopic(m1, sn1)[0] == 't' && DeviceRequestTopic(m2, sn2)[0] == 'q';
  }

  // ----- the provisioner ------------------------------------------------------------------

  /** The merchants rows of a Manjo merchant ID. */
  function Having(merchants: seq<Merchant>, manjoId: string): (found: seq<Merchant>)
    ensures forall m :: m in found <==> m in merchants && m.manjoId == manjoId
  {
    if merchants == [] then []
    else (if merchants[0].manjoId == manjoId then [merchants[0]] else []) + Having(merchants[1..], manjoId)
  }

  /** The merchants row a device's row points at. */
  function ById(merchants: seq<Merchant>, id: string): (found: Option<Merchant>)
    ensures found.Some? ==> found.value in merchants && found.value.id == id
    ensures found.None? ==> forall m :: m in merchants ==> m.id != id
  {
    if merchants == [] then None else if merchants[0].id == id then Some(merchants[0]) else ById(merchants[1..], id)
  }

  predicate TopicTaken(w: World, topic: string) {
    exists d :: d in w.devices && w.devices[d].topic == topic
  }

  /** What Add needs from the tables: one merchant, and the device either new or already the merchant's own. */
  predicate Admissible(w: World, merchants: seq<Merchant>, merchant: string, sn: string) {
    && ValidDevice(merchant, sn) && |Having(merchants, merchant)| == 1
    && if sn in w.devices then w.devices[sn].merchant == Having(merchants, merchant)[0].id
       else !TopicTaken(w, DeviceTopic(merchant, sn))
  }

  datatype Op = AddOp(merchant: string, sn: string, password: Option<string>) | RevokeOp(sn: string, remove: bool)

  class Provisioner {
    const merchants: seq<Merchant>
    const fates: nat -> Fate
    var w: World
    var calls: nat

    constructor (merchants: seq<Merchant>, fates: nat -> Fate, w: World)
      ensures this.merchants == merchants && this.fates == fates && this.w == w
    {
      this.merchants, this.fates, this.w, calls := merchants, fates, w, 0;
    }

    ghost predicate Reliable() { forall i :: fates(i).Answered? }

    /** One call for a device. */
    method Send(c: Command, ghost merchant: string, ghost sn: string) returns (e: Err, lost: bool)
      requires Valid(w) && Owns(c, merchant, sn)
      modifies this`w, this`calls
      ensures Valid(w) && OnlyTouches(old(w), w, merchant, sn)
      ensures w == old(w) || w == Exec(old(w), c)
      ensures if lost then e == Failure && !Reliable() else w == Exec(old(w), c) && e == Answer(old(w), c)
    {
      OwnCommandKeeps(w, c, merchant, sn);
      var fate := fates(calls);
      calls := calls + 1;
      e, lost := Answer(w, c), !fate.Answered?;
      if !fate.NotExecuted? { w := Exec(w, c); }
      if lost { e := Failure; }
    }

    /** A command whose work may already be done: one error of the broker's is as good as success. */
    method Ensure(c: Command, tolerated: Err, ghost merchant: string, ghost sn: string) returns (ok: bool)
      requires Valid(w) && Owns(c, merchant, sn) && tolerated != Failure
      modifies this`w, this`calls
      ensures Valid(w) && OnlyTouches(old(w), w, merchant, sn)
      ensures w == old(w) || w == Exec(old(w), c)
      ensures ok ==> w == Exec(old(w), c) && Answer(old(w), c) in {Ok, tolerated}
      ensures !ok && Reliable() ==> Answer(old(w), c) !in {Ok, tolerated}
    {
      var e, lost := Send(c, merchant, sn);
      ok := e == Ok || e == tolerated;
    }

    /** A read, which may fail. */
    method Reads() returns (ok: bool)
      modifies this`calls
      ensures !ok ==> !Reliable()
    {
      ok := fates(calls).Answered?;
      calls := calls + 1;
    }

    method UpsertDevice(merchantId: string, merchant: string, sn: string) returns (ok: bool)
      requires Valid(w)
      modifies this`w, this`calls
      ensures Valid(w) && OnlyTouches(old(w), w, merchant, sn) && w.roles == old(w).roles && w.logins == old(w).logins
      ensures ok ==> RowReady(w, merchantId, sn)
      ensures ok ==> w.devices[sn] == if sn in old(w).devices then old(w).devices[sn].(active := true)
                                      else Device(merchantId, DeviceTopic(merchant, sn), true)
      ensures sn in old(w).devices && old(w).devices[sn].merchant != merchantId ==> !ok && w == old(w)
      ensures ok || Reliable() ==> (ok <==> if sn in old(w).devices then old(w).devices[sn].merchant == merchantId
                                            else !TopicTaken(old(w), DeviceTopic(merchant, sn)))
    {
      ok := Reads();
      if !ok { return; }
      if sn !in w.devices {
        ok := Ensure(InsertDevice(sn, merchantId, DeviceTopic(merchant, sn)), Ok, merchant, sn);
      } else if w.devices[sn].merchant != merchantId {
        ok := false;
      } else {
        ok := Ensure(SetStatus(sn, true), Ok, merchant, sn);
      }
    }

    method EnsureRole(merchant: string, sn: string) returns (ok: bool)
      requires Valid(w) && ValidDevice(merchant, sn)
      modifies this`w, this`calls
      ensures Valid(w) && OnlyTouches(old(w), w, merchant, sn) && w.devices == old(w).devices
              && w.logins == old(w).logins
      ensures ok ==> RoleReady(w, merchant, sn) && OwnTopicsOnly(w.roles[RoleName(merchant, sn)], merchant, sn)
      ensures Reliable() ==> ok
    {
      var role := RoleName(merchant, sn);
      ok := Ensure(CreateRole(role), AlreadyExists, merchant, sn);
      if !ok { return; }
      var acls := [SubscribeLiteral(DeviceTopic(merchant, sn)), PublishClientReceive(DeviceTopic(merchant, sn)),
                   PublishClientSend(DeviceRequestTopic(merchant, sn))];
      for i := 0 to 3
        invariant Valid(w) && OnlyTouches(old(w), w, merchant, sn) && w.devices == old(w).devices
                  && w.logins == old(w).logins
        invariant role in w.roles && forall k :: 0 <= k < i ==> acls[k] in w.roles[role]
      {
        ghost var was := w;
        assert acls[i] in DeviceAcls(merchant, sn);
        ok := Ensure(AddRoleAcl(role, acls[i]), AlreadyExists, merchant, sn);
        TouchesTwice(old(w), was, w, merchant, sn);
        if !ok { return; }
      }
      assert w.roles[role] <= DeviceAcls(merchant, sn);
      assert acls[0] in w.roles[role] && acls[1] in w.roles[role] && acls[2] in w.roles[role];
      ReadyRoleIsOwn(w, merchant, sn);
    }

    method EnsureClient(merchant: string, sn: string, password: string) returns (ok: bool)
      requires Valid(w) && RoleReady(w, merchant, sn)
      modifies this`w, this`calls
      ensures Valid(w) && OnlyTouches(old(w), w, merchant, sn) && w.devices == old(w).devices && w.roles == old(w).roles
      ensures ok ==> LoginReady(w, merchant, sn, password)
      ensures var user := Username(merchant, sn);
              ok ==> w.logins[user].roles == (if user in old(w).logins then old(w).logins[user].roles else {})
                                             + {RoleName(merchant, sn)}
      ensures Reliable() ==> ok
    {
      var user, role := Username(merchant, sn), RoleName(merchant, sn);
      var e, lost := Send(CreateLogin(user, password, role), merchant, sn);
      if e != AlreadyExists { return e == Ok; }
      ok := Ensure(SetPassword(user, password), Ok, merchant, sn);
      if !ok { return; }
      ghost var reset := w;
      ok := Ensure(Enable(user), Ok, merchant, sn);
      TouchesTwice(old(w), reset, w, merchant, sn);
      if !ok { return; }
      ok := Reads();
      if !ok || role in w.logins[user].roles { return; }
      ghost var enabled := w;
      ok := Ensure(AddLoginRole(user, role), Ok, merchant, sn);
      TouchesTwice(old(w), enabled, w, merchant, sn);
    }

    /** Wherever a call fails, only this device's entries have changed; when none did, the device is
        provisioned with the new password; and with working calls Add succeeds exactly when it should. */
    method Add(merchant: string, sn: string, password: Option<string>) returns (ok: bool)
      requires Valid(w)
      modifies this`w, this`calls
      ensures Valid(w) && OnlyTouches(old(w), w, merchant, sn)
      ensures ok ==> Admissible(old(w), merchants, merchant, sn) && password.Some?
                     && Provisioned(w, Having(merchants, merchant)[0].id, merchant, sn, password.value)
                     && OwnTopicsOnly(w.roles[RoleName(merchant, sn)], merchant, sn)
      ensures ok && sn !in old(w).devices ==> w.devices[sn].topic == DeviceTopic(merchant, sn)
      ensures ok && sn in old(w).devices ==> w.devices[sn] == old(w).devices[sn].(active := true)
      ensures Reliable() ==> (ok <==> Admissible(old(w), merchants, merchant, sn) && password.Some?)
    {
      if !ValidId(merchant, MAX_MERCHANT_ID) || !ValidId(sn, MAX_SN) { return false; }
      ok := Reads();
      if !ok { return; }
      var found := Having(merchants, merchant);
      if |found| != 1 { return false; }
      ok := UpsertDevice(found[0].id, merchant, sn);
      if !ok { return; }
      if password.None? { return false; }
      ghost var upserted := w;
      ok := EnsureRole(merchant, sn);
      TouchesTwice(old(w), upserted, w, merchant, sn);
      if !ok { return; }
      ghost var granted := w;
      ok := EnsureClient(merchant, sn, password.value);
      TouchesTwice(old(w), granted, w, merchant, sn);
    }

    /** Wherever a call fails, only this device's entries have changed; when none did, its login is
        disabled or gone and its row inactive, and with `remove` the role is gone too; `missing` says
        that there was no login to disable. */
    method Revoke(sn: string, remove: bool) returns (ok: bool, missing: bool, ghost merchant: string)
      requires Valid(w)
      modifies this`w, this`calls
      ensures Valid(w) && OnlyTouches(old(w), w, merchant, sn)
      ensures ok ==> OwnerOf(old(w), merchants, sn) == OwnerOf(w, merchants, sn) == Some(merchant) && sn in w.devices
                     && Stopped(w, merchant, sn, remove)
                     && (missing <==> Username(merchant, sn) !in old(w).logins)
      ensures ok ==> forall acl :: !Permitted(w, Username(merchant, sn), acl)
      ensures ok ==> w.devices == old(w).devices[sn := old(w).devices[sn].(active := false)]
      ensures ok && !remove ==> w.roles == old(w).roles && w.logins.Keys == old(w).logins.Keys
      ensures var user := Username(merchant, sn);
              ok && !remove && user in w.logins ==> w.logins[user] == old(w).logins[user].(enabled := false)
      ensures Reliable() ==> (ok <==> OwnerOf(old(w), merchants, sn).Some?)
    {
      hide Permitted, Valid, ValidId;
      merchant, missing := "", false;
      ok := Reads();
      if !ok { return; }
      var owner := OwnerOf(w, merchants, sn);
      if owner.None? { ok := false; return; }
      merchant := owner.value;
      var user, role := Username(owner.value, sn), RoleName(owner.value, sn);
      var e, lost := Send(Disable(user), merchant, sn);
      missing := e == NotFound;
      if e != Ok && e != NotFound { ok := false; return; }
      if remove {
        ghost var disabled := w;
        ok := Ensure(DeleteLogin(user), NotFound, merchant, sn);
        TouchesTwice(old(w), disabled, w, merchant, sn);
        if !ok { return; }
        ghost var deleted := w;
        ok := Ensure(DeleteRole(role), NotFound, merchant, sn);
        TouchesTwice(old(w), deleted, w, merchant, sn);
        if !ok { return; }
      }
      ghost var stopped := w;
      ok := Ensure(SetStatus(sn, false), Ok, merchant, sn);
      TouchesTwice(old(w), stopped, w, merchant, sn);
      StoppedMayNothing(w, merchant, sn);
    }

    /** Any sequence of runs, each cut off anywhere: the accounts stay in order, and a device that
        no run names keeps its row and stays provisioned or revoked. */
    method RunAll(ops: seq<Op>)
      requires Valid(w)
      modifies this`w, this`calls
      ensures Valid(w)
      ensures forall id, m, sn, password :: ValidDevice(m, sn) && Spared(ops, sn)
                                            && Provisioned(old(w), id, m, sn, password)
                                            ==> Provisioned(w, id, m, sn, password)
      ensures forall m, sn, remove :: ValidDevice(m, sn) && Spared(ops, sn) && Stopped(old(w), m, sn, remove) ==>
                                      Stopped(w, m, sn, remove)
      ensures forall sn :: Spared(ops, sn) ==> SameAt(old(w).devices, w.devices, sn)
    {
      for i := 0 to |ops|
        invariant Valid(w)
        invariant forall id, m, sn, password :: ValidDevice(m, sn) && Spared(ops, sn)
                                                && Provisioned(old(w), id, m, sn, password)
                                                ==> Provisioned(w, id, m, sn, password)
        invariant forall m, sn, remove :: ValidDevice(m, sn) && Spared(ops, sn) && Stopped(old(w), m, sn, remove) ==>
                                          Stopped(w, m, sn, remove)
        invariant forall sn :: Spared(ops, sn) ==> SameAt(old(w).devices, w.devices, sn)
      {
        ghost var was, merchant := w, "";
        match ops[i] {
          case AddOp(m, sn, password) => { merchant := m; var ok := Add(m, sn, password); }
          case RevokeOp(sn, remove) => { var ok, missing; ok, missing, merchant := Revoke(sn, remove); }
        }
        forall id, m, sn, password | ValidDevice(m, sn) && Spared(ops, sn) && Provisioned(was, id, m, sn, password)
          ensures Provisioned(w, id, m, sn, password)
        {
          OthersUntouched(was, w, merchant, ops[i].sn, m, sn);
        }
        forall m, sn, remove | ValidDevice(m, sn) && Spared(ops, sn) && Stopped(was, m, sn, remove)
          ensures Stopped(w, m, sn, remove)
        {
          OthersUntouched(was, w, merchant, ops[i].sn, m, sn);
        }
        forall sn | Spared(ops, sn) ensures SameAt(old(w).devices, w.devices, sn) {
          assert SameAt(was.devices, w.devices, sn);
        }
      }
    }

    /** Safe to re-run: after any runs cut off anywhere, an Add that returns without an error has
        provisioned its device, and it still is after any runs for other devices. */
    method AddConverges(before: seq<Op>, merchant: string, sn: string, password: string, after: seq<Op>)
        returns (ok: bool)
      requires Valid(w) && Spared(after, sn)
      modifies this`w, this`calls
      ensures Valid(w)
      ensures ok ==> |Having(merchants, merchant)| == 1
                     && Provisioned(w, Having(merchants, merchant)[0].id, merchant, sn, password)
    {
      RunAll(before);
      ok := Add(merchant, sn, Some(password));
      RunAll(after);
    }

    /** After any runs cut off anywhere, a Revoke without an error has stopped the device that its row leads
        to, and it stays so through any runs for other devices: its row is inactive, and, registered under
        validated IDs, it has no enabled login. Without a failure it succeeds exactly for a device with an owner. */
    method RevokeConverges(before: seq<Op>, sn: string, remove: bool, after: seq<Op>) returns (ok: bool)
      requires Valid(w) && Spared(after, sn)
      modifies this`w, this`calls
      ensures Valid(w)
      ensures ok ==> sn in w.devices && !w.devices[sn].active
      ensures ok ==> OwnerOf(w, merchants, sn).Some?
                     && (ValidDevice(OwnerOf(w, merchants, sn).value, sn) ==>
                           Stopped(w, OwnerOf(w, merchants, sn).value, sn, remove))
      ensures Reliable() && Spared(before, sn) ==> (ok <==> OwnerOf(old(w), merchants, sn).Some?)
    {
      RunAll(before);
      assert Spared(before, sn) ==> SameAt(old(w).devices, w.devices, sn);
      var missing;
      ghost var merchant;
      ok, missing, merchant := Revoke(sn, remove);
      ghost var revoked := w;
      RunAll(after);
      assert SameAt(revoked.devices, w.devices, sn);
    }
  }

  /** From registration to the booted device: the login it connects with is enabled under its password, and
      on the topics it has printed for itself it may do what it wants to, and nothing on any other. */
  method ProvisionAndBoot(p: Provisioner, merchant: string, sn: string, password: string, server: string, port: string)
    returns (ok: bool, f: Firmware)
    requires Valid(p.w) && ValidDevice(merchant, sn)
    requires PlainValue(server) && |server| < 128 && PlainValue(port) && |port| < 8
    requires Alphanumeric(password) && |password| < 64
    modifies p`w, p`calls
    ensures f.cfg.server == server && f.cfg.port == port
    ensures p.Reliable() ==> (ok <==> Admissible(old(p.w), p.merchants, merchant, sn))
    ensures ok ==> f.cfg.user in p.w.logins && p.w.logins[f.cfg.user].password == f.cfg.pass
    ensures ok ==> forall t :: Permitted(p.w, f.cfg.user, SubscribeLiteral(t)) <==> t == f.deviceTopic
    ensures ok ==> forall t :: Permitted(p.w, f.cfg.user, PublishClientReceive(t)) <==> t == f.deviceTopic
    ensures ok ==> forall t :: Permitted(p.w, f.cfg.user, PublishClientSend(t)) <==> t == f.requestTopic
  {
    hide Permitted, DeviceTopic, DeviceRequestTopic;
    ok := p.Add(merchant, sn, Some(password));
    f := Boot(server, port, merchant, sn, password);
    if ok {
      ghost var id := Having(p.merchants, merchant)[0].id;
      forall t
        ensures Permitted(p.w, f.cfg.user, SubscribeLiteral(t)) <==> t == f.deviceTopic
        ensures Permitted(p.w, f.cfg.user, PublishClientReceive(t)) <==> t == f.deviceTopic
        ensures Permitted(p.w, f.cfg.user, PublishClientSend(t)) <==> t == f.requestTopic
      {
        ProvisionedMay(p.w, id, merchant, sn, password, t);
      }
    }
  }

  /** The Manjo merchant ID that a device's row leads to. */
  function OwnerOf(w: World, merchants: seq<Merchant>, sn: string): Option<string> {
    if sn !in w.devices then None
    else
      var merchant := ById(merchants, w.devices[sn].merchant);
      if merchant.None? then None else Some(merchant.value.manjoId)
  }

  predicate Spared(ops: seq<Op>, sn: string) {
    forall i :: 0 <= i < |ops| ==> ops[i].sn != sn
  }
}
