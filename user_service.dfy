/**
 * Account rules of the user service (src/user/user.service.ts):
 * registration, login, lookup by id, password change and profile update.
 *
 * Passwords are stored as `md5(password)`; the hash is a function given to
 * the service and nothing is assumed about it. The captcha the cache holds
 * for the e-mail address, and whether the final `save` fails, are
 * parameters of the operations that read them.
 */
module Accounts {
  import opened Repository

  datatype Permission = Permission(id: nat, code: string, description: string)

  datatype Role = Role(id: nat, name: string, permissions: seq<Permission>)

  /** A menu entry; its primary key is `menuId`. */
  datatype Router = Router(menuId: nat, menuName: string, path: string)

  /** A stored account. `roles` and `routers` are the keys of the related rows. */
  datatype User = User(
    id: nat, username: string, password: string, email: string,
    nickName: string, avatar: string, isAdmin: bool,
    roles: seq<nat>, routers: seq<nat>)

  datatype RegisterUserDto = RegisterUserDto(
    username: string, password: string, email: string, nickName: string, captcha: string)

  datatype LoginUserDto = LoginUserDto(username: string, password: string)

  datatype UpdateUserPasswordDto = UpdateUserPasswordDto(email: string, captcha: string, password: string)

  datatype UpdateUserDto = UpdateUserDto(
    id: Option<nat>, avatar: Option<string>, nickName: Option<string>,
    email: string, captcha: Option<string>, roleIds: Option<seq<nat>>)

  /** The `userInfo` part of the login answer. */
  datatype UserInfo = UserInfo(
    id: nat, username: string, nickName: string, email: string, avatar: string,
    isAdmin: bool, roles: seq<string>, permissions: seq<Permission>)

  /** The answer of `findUserById`. */
  datatype UserSummary = UserSummary(
    id: nat, username: string, isAdmin: bool, roles: seq<string>, permissions: seq<Permission>)

  /** The role the registration assigns to every new account. */
  const RegistrationRoleId: nat := 3

  const CaptchaExpired: Error := Error(BadRequest, "验证码已失效")
  const CaptchaWrong: Error := Error(BadRequest, "验证码不正确")
  const UserExists: Error := Error(BadRequest, "用户已存在")
  const RegistrationRoleMissing: Error := Error(BadRequest, "老师角色不存在")
  const UserMissing: Error := Error(BadRequest, "用户不存在")
  const UnknownUser: Error := Error(Unauthorized, "用户不存在")
  const WrongPassword: Error := Error(Unauthorized, "密码错误")
  const InvalidRoleIds: Error := Error(BadRequest, "存在无效的角色ID")

  /** `!captcha` is false: the cache returned a non-empty value. */
  predicate CaptchaPresent(stored: Option<string>)
  {
    TruthyText(stored)
  }

  /** The captcha checks of `register` and `updatePassword` pass. */
  predicate CaptchaAccepted(storedCaptcha: Option<string>, given: string)
  {
    CaptchaPresent(storedCaptcha) && given == storedCaptcha.value
  }

  /** The optional captcha check of `update` fails: one was supplied and the
      cache holds nothing equal to it. */
  predicate CaptchaRejected(storedCaptcha: Option<string>, given: Option<string>)
  {
    TruthyText(given) && (storedCaptcha.None? || storedCaptcha.value != given.value)
  }

  /** A router of the range registration grants: `Between(100, 199)`. */
  predicate GrantedAtRegistration(r: Router)
  {
    100 <= r.menuId <= 199
  }

  /** The rows a relation of keys loads, in relation order; a key without a
      row loads nothing. */
  function LoadRoles(table: map<nat, Role>, ids: seq<nat>): (r: seq<Role>)
    ensures (forall i :: 0 <= i < |ids| ==> ids[i] in table) ==>
              |r| == |ids| && forall i :: 0 <= i < |ids| ==> r[i] == table[ids[i]]
  {
    if ids == [] then []
    else (if ids[0] in table then [table[ids[0]]] else []) + LoadRoles(table, ids[1..])
  }

  function RoleNames(roles: seq<Role>): (r: seq<string>)
    ensures |r| == |roles| && forall i :: 0 <= i < |roles| ==> r[i] == roles[i].name
  {
    seq(|roles|, i requires 0 <= i < |roles| => roles[i].name)
  }

  /** `roles.flatMap(role => role.permissions)`. */
  function Flatten(roles: seq<Role>): seq<Permission>
  {
    if roles == [] then [] else Flatten(roles[..|roles| - 1]) + roles[|roles| - 1].permissions
  }

  // ---------------------------------------------------------------------
  // De-duplication by identity (`findUserById`): keep the first occurrence.
  // ---------------------------------------------------------------------

  /** The position of the first `x` in `xs`. */
  function FirstIndex(xs: seq<Permission>, x: Permission): (k: nat)
    requires x in xs
    ensures k < |xs| && xs[k] == x && forall i :: 0 <= i < k ==> xs[i] != x
  {
    if xs[0] == x then 0 else 1 + FirstIndex(xs[1..], x)
  }

  /** The accumulator the `reduce` builds: an element is pushed when
      `indexOf` does not find it yet. */
  function DedupFirst(xs: seq<Permission>): (r: seq<Permission>)
    ensures Distinct(r)
    ensures forall x :: x in r <==> x in xs
  {
    if xs == [] then []
    else
      var prev := DedupFirst(xs[..|xs| - 1]);
      var x := xs[|xs| - 1];
      assert xs == xs[..|xs| - 1] + [x];
      if x in prev then prev else prev + [x]
  }

  lemma FirstIndexOfPrefix(xs: seq<Permission>, y: Permission, x: Permission)
    requires x in xs
    ensures FirstIndex(xs + [y], x) == FirstIndex(xs, x)
  {
    var k, k' := FirstIndex(xs, x), FirstIndex(xs + [y], x);
    assert (xs + [y])[k] == x;
    assert k' < |xs| ==> xs[k'] == x;
  }

  /** Every element of `r` occurs in `xs`, and `r` lists them in the order of
      their first occurrences in `xs`. */
  predicate InFirstOccurrenceOrder(r: seq<Permission>, xs: seq<Permission>)
  {
    forall i, j :: 0 <= i < j < |r| ==>
      r[i] in xs && r[j] in xs && FirstIndex(xs, r[i]) < FirstIndex(xs, r[j])
  }

  /** Appending to `xs` keeps the order of what was already there, and an
      element new to `xs` goes after all of them. */
  lemma FirstOccurrenceOrderExtend(r: seq<Permission>, p: seq<Permission>, y: Permission)
    requires InFirstOccurrenceOrder(r, p) && forall x :: x in r ==> x in p
    ensures InFirstOccurrenceOrder(r, p + [y])
    ensures y !in p ==> InFirstOccurrenceOrder(r + [y], p + [y])
  {
    var xs := p + [y];
    forall i | 0 <= i < |r| ensures r[i] in p && FirstIndex(xs, r[i]) == FirstIndex(p, r[i]) < |p| {
      assert r[i] in r;
      FirstIndexOfPrefix(p, y, r[i]);
    }
    if y !in p {
      assert xs[|p|] == y;
      assert FirstIndex(xs, y) == |p|;
      var r' := r + [y];
      forall i, j | 0 <= i < j < |r'|
        ensures r'[i] in xs && r'[j] in xs && FirstIndex(xs, r'[i]) < FirstIndex(xs, r'[j])
      {
        assert r'[i] == r[i];
        if j < |r| {
          assert r'[j] == r[j];
        }
      }
    }
  }

  /** The kept elements appear in the order of their first occurrences. */
  lemma {:induction false} DedupFirstOrder(xs: seq<Permission>)
    ensures InFirstOccurrenceOrder(DedupFirst(xs), xs)
  {
    if xs != [] {
      var p, y := xs[..|xs| - 1], xs[|xs| - 1];
      assert xs == p + [y];
      DedupFirstOrder(p);
      var prev := DedupFirst(p);
      FirstOccurrenceOrderExtend(prev, p, y);
    }
  }

  // ---------------------------------------------------------------------
  // De-duplication by code (`login`): `[...new Map(ps.map(p => [p.code, p])).values()]`.
  // A Map keeps the position where a key was first set and the value it
  // was last set to.
  // ---------------------------------------------------------------------

  predicate DistinctCodes(s: seq<Permission>)
  {
    forall i, j :: 0 <= i < j < |s| ==> s[i].code != s[j].code
  }

  predicate HasCode(s: seq<Permission>, code: string)
  {
    exists i :: 0 <= i < |s| && s[i].code == code
  }

  /** Where `code` sits among the entries, or -1. */
  function CodePosition(entries: seq<Permission>, code: string): (k: int)
    ensures -1 <= k < |entries|
    ensures k >= 0 ==> entries[k].code == code
    ensures k == -1 <==> !HasCode(entries, code)
  {
    if entries == [] then -1
    else if entries[|entries| - 1].code == code then |entries| - 1
    else CodePosition(entries[..|entries| - 1], code)
  }

  /** `map.set(p.code, p)`. */
  function MapSet(entries: seq<Permission>, p: Permission): (r: seq<Permission>)
    requires DistinctCodes(entries)
    ensures DistinctCodes(r)
    ensures HasCode(entries, p.code) ==> |r| == |entries|
    ensures !HasCode(entries, p.code) ==> r == entries + [p]
    ensures forall i :: 0 <= i < |entries| ==> r[i] == (if entries[i].code == p.code then p else entries[i])
  {
    var k := CodePosition(entries, p.code);
    if k < 0 then entries + [p] else entries[k := p]
  }

  /** Setting `p` keeps every code already present and adds `p`'s. */
  lemma MapSetHasCodes(entries: seq<Permission>, p: Permission)
    requires DistinctCodes(entries)
    ensures HasCode(MapSet(entries, p), p.code)
    ensures forall c :: HasCode(entries, c) ==> HasCode(MapSet(entries, p), c)
  {
    var r, k := MapSet(entries, p), CodePosition(entries, p.code);
    assert r[if k < 0 then |entries| else k] == p;
    forall c | HasCode(entries, c) ensures HasCode(r, c) {
      var i :| 0 <= i < |entries| && entries[i].code == c;
      assert r[i].code == c;
    }
  }

  /** Setting one more permission keeps every entry drawn from the input
      and every code of the input present. */
  lemma DedupByCodeExtend(prev: seq<Permission>, p0: seq<Permission>, p: Permission)
    requires DistinctCodes(prev)
    requires forall i :: 0 <= i < |prev| ==> prev[i] in p0
    requires forall j :: 0 <= j < |p0| ==> HasCode(prev, p0[j].code)
    ensures var r, ps := MapSet(prev, p), p0 + [p];
            (forall i :: 0 <= i < |r| ==> r[i] in ps) && (forall j :: 0 <= j < |ps| ==> HasCode(r, ps[j].code))
  {
    var r, ps := MapSet(prev, p), p0 + [p];
    MapSetHasCodes(prev, p);
    forall i | 0 <= i < |r| ensures r[i] in ps {
      if i < |prev| && prev[i].code != p.code {
        assert r[i] == prev[i] && prev[i] in p0;
      } else {
        assert r[i] == p == ps[|p0|];
      }
    }
    forall j | 0 <= j < |ps| ensures HasCode(r, ps[j].code) {
      if j < |p0| {
        assert ps[j] == p0[j];
      }
    }
  }

  /** The values of the Map built from `ps`, in insertion order of their codes. */
  function DedupByCode(ps: seq<Permission>): (r: seq<Permission>)
    ensures DistinctCodes(r)
    ensures forall i :: 0 <= i < |r| ==> r[i] in ps
    ensures forall j :: 0 <= j < |ps| ==> HasCode(r, ps[j].code)
  {
    if ps == [] then []
    else
      var prev := DedupByCode(ps[..|ps| - 1]);
      var p := ps[|ps| - 1];
      assert ps == ps[..|ps| - 1] + [p];
      DedupByCodeExtend(prev, ps[..|ps| - 1], p);
      MapSet(prev, p)
  }

  /** The position of the last permission in `ps` with that code. */
  function LastCodeIndex(ps: seq<Permission>, code: string): (k: nat)
    requires HasCode(ps, code)
    ensures k < |ps| && ps[k].code == code
    ensures forall j :: k < j < |ps| ==> ps[j].code != code
  {
    if ps[|ps| - 1].code == code then |ps| - 1
    else
      assert HasCode(ps[..|ps| - 1], code) by {
        var i :| 0 <= i < |ps| && ps[i].code == code;
        assert ps[..|ps| - 1][i].code == code;
      }
      LastCodeIndex(ps[..|ps| - 1], code)
  }

  lemma LastCodeIndexExtend(p0: seq<Permission>, y: Permission, code: string)
    requires HasCode(p0, code) && code != y.code
    ensures HasCode(p0 + [y], code) && LastCodeIndex(p0 + [y], code) == LastCodeIndex(p0, code)
  {
    var ps := p0 + [y];
    var k := LastCodeIndex(p0, code);
    assert ps[k].code == code;
    assert ps[..|ps| - 1] == p0;
  }

  /** `DedupByCode` unfolded once. */
  lemma DedupByCodeStep(p0: seq<Permission>, y: Permission)
    ensures DedupByCode(p0 + [y]) == MapSet(DedupByCode(p0), y)
  {
    assert (p0 + [y])[..|p0|] == p0;
  }

  /** Each entry of `r` is the last permission of `ps` carrying its code. */
  predicate KeepsLast(r: seq<Permission>, ps: seq<Permission>)
  {
    forall i :: 0 <= i < |r| ==> HasCode(ps, r[i].code) && r[i] == ps[LastCodeIndex(ps, r[i].code)]
  }

  /** Setting one more permission keeps the last carrier of every code. */
  lemma KeepsLastExtend(prev: seq<Permission>, p0: seq<Permission>, y: Permission)
    requires DistinctCodes(prev) && KeepsLast(prev, p0)
    ensures KeepsLast(MapSet(prev, y), p0 + [y])
  {
    var ps, r := p0 + [y], MapSet(prev, y);
    assert HasCode(ps, y.code) by {
      assert ps[|ps| - 1].code == y.code;
    }
    assert LastCodeIndex(ps, y.code) == |ps| - 1;
    forall i | 0 <= i < |r| ensures HasCode(ps, r[i].code) && r[i] == ps[LastCodeIndex(ps, r[i].code)] {
      if i < |prev| {
        if prev[i].code == y.code {
          assert r[i] == y;
        } else {
          assert r[i] == prev[i];
          LastCodeIndexExtend(p0, y, prev[i].code);
        }
      } else {
        assert r == prev + [y] && r[i] == y;
      }
    }
  }

  /** Each code keeps the LAST permission that carried it. */
  lemma {:induction false} DedupByCodeKeepsLast(ps: seq<Permission>)
    ensures KeepsLast(DedupByCode(ps), ps)
  {
    if ps != [] {
      var p0, y := ps[..|ps| - 1], ps[|ps| - 1];
      assert ps == p0 + [y];
      DedupByCodeKeepsLast(p0);
      DedupByCodeStep(p0, y);
      KeepsLastExtend(DedupByCode(p0), p0, y);
    }
  }

  /** The position of the first permission in `ps` with that code. */
  function FirstCodeIndex(ps: seq<Permission>, code: string): (k: nat)
    requires HasCode(ps, code)
    ensures k < |ps| && ps[k].code == code
    ensures forall j :: 0 <= j < k ==> ps[j].code != code
  {
    if ps[0].code == code then 0
    else
      assert HasCode(ps[1..], code) by {
        var i :| 0 <= i < |ps| && ps[i].code == code;
        assert ps[1..][i - 1].code == code;
      }
      1 + FirstCodeIndex(ps[1..], code)
  }

  lemma FirstCodeIndexExtend(p0: seq<Permission>, y: Permission, code: string)
    requires HasCode(p0, code)
    ensures HasCode(p0 + [y], code) && FirstCodeIndex(p0 + [y], code) == FirstCodeIndex(p0, code)
  {
    var ps := p0 + [y];
    var k := FirstCodeIndex(p0, code);
    assert ps[k].code == code;
    var k' := FirstCodeIndex(ps, code);
    assert k' < |p0| ==> p0[k'].code == code;
  }

  lemma FirstCodeIndexNew(p0: seq<Permission>, y: Permission)
    requires !HasCode(p0, y.code)
    ensures HasCode(p0 + [y], y.code) && FirstCodeIndex(p0 + [y], y.code) == |p0|
  {
    var ps := p0 + [y];
    assert ps[|p0|].code == y.code;
    assert forall j :: 0 <= j < |p0| ==> ps[j].code == p0[j].code != y.code;
  }

  /** A code the Map has not seen does not occur in the list it was built from. */
  lemma DedupByCodeUnseen(p0: seq<Permission>, y: Permission)
    requires !HasCode(DedupByCode(p0), y.code)
    ensures !HasCode(p0, y.code)
  {
    var prev := DedupByCode(p0);
    forall w | 0 <= w < |p0| ensures p0[w].code != y.code {
      assert HasCode(prev, p0[w].code);
    }
  }

  /** The codes of a list of permissions, position by position. */
  function Codes(r: seq<Permission>): (c: seq<string>)
    ensures |c| == |r| && forall i :: 0 <= i < |r| ==> c[i] == r[i].code
  {
    seq(|r|, i requires 0 <= i < |r| => r[i].code)
  }

  /** Every code of `r` occurs in `ps`, and `r` lists the codes in the order
      of their first occurrences in `ps`. */
  predicate InFirstCodeOrder(r: seq<Permission>, ps: seq<Permission>)
  {
    var c := Codes(r);
    forall i, j :: 0 <= i < j < |c| ==>
      HasCode(ps, c[i]) && HasCode(ps, c[j]) && FirstCodeIndex(ps, c[i]) < FirstCodeIndex(ps, c[j])
  }

  /** Appending to `ps` keeps the code order of what was already there, and a
      code new to `ps` goes after all of them. */
  lemma FirstCodeOrderExtend(r: seq<Permission>, p0: seq<Permission>, y: Permission)
    requires InFirstCodeOrder(r, p0) && forall i :: 0 <= i < |r| ==> HasCode(p0, r[i].code)
    ensures InFirstCodeOrder(r, p0 + [y])
    ensures !HasCode(p0, y.code) ==> InFirstCodeOrder(r + [y], p0 + [y])
  {
    var ps := p0 + [y];
    var c := Codes(r);
    forall i | 0 <= i < |c|
      ensures HasCode(ps, c[i]) && FirstCodeIndex(ps, c[i]) == FirstCodeIndex(p0, c[i]) < |p0|
    {
      FirstCodeIndexExtend(p0, y, c[i]);
    }
    if !HasCode(p0, y.code) {
      FirstCodeIndexNew(p0, y);
      var c' := Codes(r + [y]);
      assert c' == c + [y.code];
      forall i, j | 0 <= i < j < |c'|
        ensures HasCode(ps, c'[i]) && HasCode(ps, c'[j]) && FirstCodeIndex(ps, c'[i]) < FirstCodeIndex(ps, c'[j])
      {
        assert c'[i] == c[i];
        if j < |c| {
          assert c'[j] == c[j];
        }
      }
    }
  }

  /** Every code the Map holds came from the list. */
  lemma DedupByCodeSeen(ps: seq<Permission>)
    ensures var r := DedupByCode(ps);
            forall i :: 0 <= i < |r| ==> HasCode(ps, r[i].code)
  {
    var r := DedupByCode(ps);
    forall i | 0 <= i < |r| ensures HasCode(ps, r[i].code) {
      assert r[i] in ps;
      var w :| 0 <= w < |ps| && ps[w] == r[i];
    }
  }

  /** Setting a code the Map already holds changes no code. */
  lemma MapSetKeepsCodes(entries: seq<Permission>, p: Permission)
    requires DistinctCodes(entries) && HasCode(entries, p.code)
    ensures Codes(MapSet(entries, p)) == Codes(entries)
  {
    var r := MapSet(entries, p);
    assert forall i :: 0 <= i < |r| ==> Codes(r)[i] == Codes(entries)[i];
  }

  /** Codes come out in the order in which they first occur. */
  lemma {:induction false} DedupByCodeOrder(ps: seq<Permission>)
    ensures InFirstCodeOrder(DedupByCode(ps), ps)
  {
    if ps != [] {
      var p0, y := ps[..|ps| - 1], ps[|ps| - 1];
      assert ps == p0 + [y];
      DedupByCodeOrder(p0);
      DedupByCodeStep(p0, y);
      var prev := DedupByCode(p0);
      DedupByCodeSeen(p0);
      FirstCodeOrderExtend(prev, p0, y);
      if HasCode(prev, y.code) {
        MapSetKeepsCodes(prev, y);
      } else {
        DedupByCodeUnseen(p0, y);
      }
    }
  }

  /** No two different permissions in `ps` share a code. */
  predicate CodeIdentifies(ps: seq<Permission>)
  {
    forall i, j :: 0 <= i < |ps| && 0 <= j < |ps| && ps[i].code == ps[j].code ==> ps[i] == ps[j]
  }

  /** With codes identifying permissions, a permission whose code was already
      kept is the kept one itself, and setting it again changes nothing. */
  lemma SeenCodeIsSeenPermission(p0: seq<Permission>, y: Permission)
    requires CodeIdentifies(p0 + [y])
    requires DistinctCodes(DedupFirst(p0))
    ensures var prev := DedupFirst(p0);
            HasCode(prev, y.code) ==> y in prev && MapSet(prev, y) == prev
  {
    var ps, prev := p0 + [y], DedupFirst(p0);
    if HasCode(prev, y.code) {
      forall k | 0 <= k < |prev| && prev[k].code == y.code ensures prev[k] == y {
        assert prev[k] in p0;
        var w :| 0 <= w < |p0| && p0[w] == prev[k];
        assert ps[w] == p0[w] && ps[|p0|] == y;
      }
      var k :| 0 <= k < |prev| && prev[k].code == y.code;
      assert prev[k] == y;
    }
  }

  /** When a code identifies one permission, the two de-duplication schemes
      of the service give the same list. */
  lemma {:induction false} DedupSchemesAgree(ps: seq<Permission>)
    requires CodeIdentifies(ps)
    ensures DedupByCode(ps) == DedupFirst(ps)
  {
    if ps != [] {
      var p0, y := ps[..|ps| - 1], ps[|ps| - 1];
      assert ps == p0 + [y];
      assert CodeIdentifies(p0) by {
        forall i, j | 0 <= i < |p0| && 0 <= j < |p0| && p0[i].code == p0[j].code ensures p0[i] == p0[j] {
          assert p0[i] == ps[i] && p0[j] == ps[j];
        }
      }
      DedupSchemesAgree(p0);
      DedupByCodeStep(p0, y);
      var prev := DedupFirst(p0);
      SeenCodeIsSeenPermission(p0, y);
      if !HasCode(prev, y.code) {
        assert forall k :: 0 <= k < |prev| ==> prev[k].code != y.code;
        assert y !in prev;
      }
    }
  }

  /** One more permission pushed onto the accumulator the `reduce` builds. */
  lemma DedupFirstPush(done: seq<Permission>, ps: seq<Permission>, j: nat)
    requires j < |ps|
    ensures DedupFirst(done + ps[..j + 1])
         == if ps[j] in DedupFirst(done + ps[..j]) then DedupFirst(done + ps[..j])
            else DedupFirst(done + ps[..j]) + [ps[j]]
  {
    var xs := done + ps[..j + 1];
    assert xs[..|xs| - 1] == done + ps[..j];
    assert xs[|xs| - 1] == ps[j];
  }

  /** The permissions of one more role appended to the flattened list. */
  lemma FlattenPush(roles: seq<Role>, i: nat)
    requires i < |roles|
    ensures Flatten(roles[..i + 1]) == Flatten(roles[..i]) + roles[i].permissions[..|roles[i].permissions|]
  {
    assert roles[..i + 1][..i] == roles[..i];
    assert roles[i].permissions[..|roles[i].permissions|] == roles[i].permissions;
  }

  /** The loop `findUserById` runs: `reduce` over the roles with a nested
      `forEach` that pushes a permission when `indexOf` does not find it. */
  method CollectPermissions(roles: seq<Role>) returns (arr: seq<Permission>)
    ensures arr == DedupFirst(Flatten(roles))
  {
    arr := [];
    for i := 0 to |roles|
      invariant arr == DedupFirst(Flatten(roles[..i]))
    {
      var ps := roles[i].permissions;
      assert Flatten(roles[..i]) + ps[..0] == Flatten(roles[..i]);
      for j := 0 to |ps|
        invariant arr == DedupFirst(Flatten(roles[..i]) + ps[..j])
      {
        DedupFirstPush(Flatten(roles[..i]), ps, j);
        if ps[j] !in arr {
          arr := arr + [ps[j]];
        }
      }
      FlattenPush(roles, i);
    }
    assert roles[..|roles|] == roles;
  }

  /** The user service with its repositories as tables. */
  class UserService {
    var users: map<nat, User>
    var nextUserId: nat
    var roles: map<nat, Role>
    var routers: map<nat, Router>
    var routerBound: nat
    const md5: string -> string

    ghost predicate Valid()
      reads this
    {
      && (forall k :: k in users ==> k < nextUserId && users[k].id == k)
      && (forall k :: k in routers ==> k < routerBound && routers[k].menuId == k)
    }

    constructor (roles: map<nat, Role>, routers: map<nat, Router>, routerBound: nat, md5: string -> string)
      requires forall k :: k in routers ==> k < routerBound && routers[k].menuId == k
      ensures Valid()
      ensures this.users == map[] && this.nextUserId == 0
      ensures this.roles == roles && this.routers == routers && this.routerBound == routerBound
      ensures this.md5 == md5
    {
      this.users := map[];
      this.nextUserId := 0;
      this.roles := roles;
      this.routers := routers;
      this.routerBound := routerBound;
      this.md5 := md5;
    }

    predicate UsernameTaken(name: string)
      reads this
    {
      exists k :: k in users && users[k].username == name
    }

    /** The account `register` stores under key `id`. The avatar and the admin
        flag are not set by `register`; the empty text and `false` stand for
        the columns' defaults. */
    function NewAccount(id: nat, dto: RegisterUserDto): (u: User)
      reads this
      ensures u.id == id && u.username == dto.username && u.password == md5(dto.password)
      ensures u.email == dto.email && u.nickName == dto.nickName
      ensures u.avatar == "" && !u.isAdmin
      ensures u.roles == [RegistrationRoleId]
      ensures forall k :: k in u.routers <==> k in routers && k < routerBound && GrantedAtRegistration(routers[k])
    {
      User(id, dto.username, md5(dto.password), dto.email, dto.nickName, "", false,
           [RegistrationRoleId], RowsWhere(routers, GrantedAtRegistration, routerBound))
    }

    /** `register`: the checks run in the order captcha present, captcha
        equal, username free, registration role present. A failing save is
        reported in the answer text, not thrown. */
    method Register(dto: RegisterUserDto, storedCaptcha: Option<string>, saveFails: bool) returns (r: Result<string>)
      requires Valid()
      modifies this
      ensures Valid()
      ensures roles == old(roles) && routers == old(routers) && routerBound == old(routerBound)
      ensures !CaptchaPresent(storedCaptcha) ==> r == Err(CaptchaExpired)
      ensures CaptchaPresent(storedCaptcha) && dto.captcha != storedCaptcha.value ==> r == Err(CaptchaWrong)
      ensures CaptchaAccepted(storedCaptcha, dto.captcha) && old(UsernameTaken(dto.username)) ==> r == Err(UserExists)
      ensures (CaptchaAccepted(storedCaptcha, dto.captcha) && !old(UsernameTaken(dto.username))
               && RegistrationRoleId !in roles) ==> r == Err(RegistrationRoleMissing)
      ensures (CaptchaAccepted(storedCaptcha, dto.captcha) && !old(UsernameTaken(dto.username))
               && RegistrationRoleId in roles) ==> r == Ok(if saveFails then "注册失败" else "注册成功")
      ensures r == Ok("注册成功") ==>
                users == old(users)[old(nextUserId) := NewAccount(old(nextUserId), dto)]
                && nextUserId == old(nextUserId) + 1
      ensures r != Ok("注册成功") ==> users == old(users) && nextUserId == old(nextUserId)
    {
      if !CaptchaPresent(storedCaptcha) {
        return Err(CaptchaExpired);
      }
      if dto.captcha != storedCaptcha.value {
        return Err(CaptchaWrong);
      }
      if UsernameTaken(dto.username) {
        return Err(UserExists);
      }
      if RegistrationRoleId !in roles {
        return Err(RegistrationRoleMissing);
      }
      if saveFails {
        return Ok("注册失败");
      }
      users := users[nextUserId := NewAccount(nextUserId, dto)];
      nextUserId := nextUserId + 1;
      return Ok("注册成功");
    }

    /** The condition of the `getOne` lookup by username. */
    static function NamedAs(name: string): User -> bool
    {
      (u: User) => u.username == name
    }

    /** `login`: the user of that name (lowest key first), refused as unknown
        when absent and as a wrong password when the stored hash differs from
        `md5(password)`; otherwise answered with its fields, role names and
        code-de-duplicated permissions. The `isAdmin` argument is not
        consulted. */
    function Login(dto: LoginUserDto, isAdmin: bool): (r: Result<UserInfo>)
      reads this
      ensures var m := FirstMatch(users, NamedAs(dto.username), nextUserId);
              && (r == Err(UnknownUser) <==> m.None?)
              && (r == Err(WrongPassword) <==> m.Some? && users[m.value].password != md5(dto.password))
              && (r.Ok? <==> m.Some? && users[m.value].password == md5(dto.password))
              && (m.None? <==> forall k :: 0 <= k < nextUserId && k in users ==> users[k].username != dto.username)
      ensures r.Ok? ==>
                var k := r.value.id;
                && k == FirstMatch(users, NamedAs(dto.username), nextUserId).value
                && k in users
                && var u := users[k];
                var rs := LoadRoles(roles, u.roles);
                && u.username == dto.username && u.password == md5(dto.password)
                && r.value == UserInfo(k, u.username, u.nickName, u.email, u.avatar, u.isAdmin,
                                       RoleNames(rs), DedupByCode(Flatten(rs)))
    {
      match FirstMatch(users, NamedAs(dto.username), nextUserId)
      case None => Err(UnknownUser)
      case Some(k) =>
        var u := users[k];
        if u.password != md5(dto.password) then Err(WrongPassword)
        else
          var rs := LoadRoles(roles, u.roles);
          Ok(UserInfo(k, u.username, u.nickName, u.email, u.avatar, u.isAdmin,
                      RoleNames(rs), DedupByCode(Flatten(rs))))
    }

    /** `findUserById`: the user with that key and that admin flag, or null. */
    method FindUserById(userId: nat, isAdmin: bool) returns (r: Option<UserSummary>)
      ensures r.None? <==> !(userId in users && users[userId].isAdmin == isAdmin)
      ensures r.Some? ==>
                var u := users[userId];
                var rs := LoadRoles(roles, u.roles);
                r.value == UserSummary(u.id, u.username, u.isAdmin, RoleNames(rs), DedupFirst(Flatten(rs)))
    {
      if !(userId in users && users[userId].isAdmin == isAdmin) {
        return None;
      }
      var u := users[userId];
      var rs := LoadRoles(roles, u.roles);
      var permissions := CollectPermissions(rs);
      return Some(UserSummary(u.id, u.username, u.isAdmin, RoleNames(rs), permissions));
    }

    /** `updatePassword`: captcha present, captcha equal, user present, in
        that order; then only the password changes, to `md5(new password)`. */
    method UpdatePassword(userId: nat, dto: UpdateUserPasswordDto, storedCaptcha: Option<string>, saveFails: bool)
      returns (r: Result<string>)
      requires Valid()
      modifies this`users
      ensures Valid()
      ensures !CaptchaPresent(storedCaptcha) ==> r == Err(CaptchaExpired)
      ensures CaptchaPresent(storedCaptcha) && dto.captcha != storedCaptcha.value ==> r == Err(CaptchaWrong)
      ensures CaptchaAccepted(storedCaptcha, dto.captcha) && userId !in old(users) ==> r == Err(UserMissing)
      ensures (CaptchaAccepted(storedCaptcha, dto.captcha) && userId in old(users))
                ==> r == Ok(if saveFails then "密码修改失败" else "密码修改成功")
      ensures r == Ok("密码修改成功") ==>
                users == old(users)[userId := old(users)[userId].(password := md5(dto.password))]
      ensures r != Ok("密码修改成功") ==> users == old(users)
    {
      if !CaptchaPresent(storedCaptcha) {
        return Err(CaptchaExpired);
      }
      if dto.captcha != storedCaptcha.value {
        return Err(CaptchaWrong);
      }
      if userId !in users {
        return Err(UserMissing);
      }
      if saveFails {
        return Ok("密码修改失败");
      }
      users := users[userId := users[userId].(password := md5(dto.password))];
      return Ok("密码修改成功");
    }

    /** The profile changes `update` makes to a found user, or the role error. */
    function ApplyProfileUpdate(u: User, dto: UpdateUserDto): (r: Result<User>)
      reads this
      ensures r.Err? <==>
                dto.roleIds.Some? && |dto.roleIds.value| > 0
                && !((forall i :: 0 <= i < |dto.roleIds.value| ==> dto.roleIds.value[i] in roles)
                     && Distinct(dto.roleIds.value))
      ensures r.Err? ==> r.error == InvalidRoleIds
      ensures r.Ok? ==>
                && r.value.nickName == (if TruthyText(dto.nickName) then dto.nickName.value else u.nickName)
                && r.value.avatar == (if TruthyText(dto.avatar) then dto.avatar.value else u.avatar)
                && r.value.roles == (if dto.roleIds.Some? && |dto.roleIds.value| > 0 then dto.roleIds.value else u.roles)
                && r.value == u.(nickName := r.value.nickName, avatar := r.value.avatar, roles := r.value.roles)
    {
      var nick := if TruthyText(dto.nickName) then dto.nickName.value else u.nickName;
      var avatar := if TruthyText(dto.avatar) then dto.avatar.value else u.avatar;
      if dto.roleIds.Some? && |dto.roleIds.value| > 0 then
        var found := FindIn(roles.Keys, dto.roleIds.value);
        FindInComplete(roles.Keys, dto.roleIds.value);
        if |found| != |dto.roleIds.value| then Err(InvalidRoleIds)
        else Ok(u.(nickName := nick, avatar := avatar, roles := found))
      else Ok(u.(nickName := nick, avatar := avatar))
    }

    /** `update`: a supplied captcha must match; the target is `dto.id` when
        truthy, else the caller; nick name and avatar change only to truthy
        values; a non-empty role list must name existing, distinct roles and
        then replaces the roles. */
    method Update(userId: nat, dto: UpdateUserDto, storedCaptcha: Option<string>, saveFails: bool)
      returns (r: Result<string>)
      requires Valid()
      modifies this`users
      ensures Valid()
      ensures CaptchaRejected(storedCaptcha, dto.captcha) ==> r == Err(CaptchaWrong)
      ensures var target := if TruthyKey(dto.id) then dto.id.value else userId;
              !CaptchaRejected(storedCaptcha, dto.captcha) ==>
                if target !in old(users) then r == Err(UserMissing)
                  else match ApplyProfileUpdate(old(users)[target], dto)
                    case Err(e) => r == Err(e)
                    case Ok(u) => r == Ok(if saveFails then "用户信息修改失败" else "用户信息修改成功")
                                  && (!saveFails ==> users == old(users)[target := u])
      ensures r != Ok("用户信息修改成功") ==> users == old(users)
    {
      if CaptchaRejected(storedCaptcha, dto.captcha) {
        return Err(CaptchaWrong);
      }
      var target := if TruthyKey(dto.id) then dto.id.value else userId;
      if target !in users {
        return Err(UserMissing);
      }
      var updated := ApplyProfileUpdate(users[target], dto);
      if updated.Err? {
        return Err(updated.error);
      }
      if saveFails {
        return Ok("用户信息修改失败");
      }
      users := users[target := updated.value];
      return Ok("用户信息修改成功");
    }
  }
}
