/**
 * The permission guard (src/permission.guard.ts): a request passes when it
 * carries no user, or when the handler declares no required permissions, or
 * when ANY required code is held by the user. A user whose `permissions` is
 * not an array is refused with an Unauthorized error.
 */
module PermissionGuard {
  import opened Repository
  import opened Accounts

  /** What `request.user.permissions` holds: an array, or something else. */
  datatype PermissionsField = PermissionArray(items: seq<Permission>) | NotAnArray

  datatype RequestUser = RequestUser(permissions: PermissionsField)

  /** Some required code equals the code of some held permission. */
  predicate AnyRequiredHeld(required: seq<string>, held: seq<Permission>)
  {
    exists i, j :: 0 <= i < |required| && 0 <= j < |held| && held[j].code == required[i]
  }

  /** `permissions.find(item => item.code === code)`: the first held
      permission with that code. */
  function FindByCode(held: seq<Permission>, code: string): (r: Option<Permission>)
    ensures r.Some? <==> exists j :: 0 <= j < |held| && held[j].code == code
    ensures r.Some? ==> r.value in held && r.value.code == code
  {
    if held == [] then None
    else if held[0].code == code then Some(held[0])
    else
      var r := FindByCode(held[1..], code);
      assert forall j :: 1 <= j < |held| ==> held[j] == held[1..][j - 1];
      r
  }

  const MalformedPermissions: Error := Error(Unauthorized, "用户权限数据格式错误")

  /** `canActivate`: the indexed loop over the required codes returns as soon
      as one of them is held. */
  method CanActivate(user: Option<RequestUser>, required: Option<seq<string>>) returns (r: Result<bool>)
    ensures user.None? ==> r == Ok(true)
    ensures user.Some? && user.value.permissions.NotAnArray? ==> r == Err(MalformedPermissions)
    ensures user.Some? && user.value.permissions.PermissionArray? && required.None? ==> r == Ok(true)
    ensures user.Some? && user.value.permissions.PermissionArray? && required.Some? ==>
              r == Ok(AnyRequiredHeld(required.value, user.value.permissions.items))
  {
    if user.None? {
      return Ok(true);
    }
    if user.value.permissions.NotAnArray? {
      return Err(MalformedPermissions);
    }
    var held := user.value.permissions.items;
    if required.None? {
      return Ok(true);
    }
    var codes := required.value;
    var i := 0;
    while i < |codes|
      invariant 0 <= i <= |codes|
      invariant forall k, j :: 0 <= k < i && 0 <= j < |held| ==> held[j].code != codes[k]
    {
      var found := FindByCode(held, codes[i]);
      if found.Some? {
        return Ok(true);
      }
      i := i + 1;
    }
    return Ok(false);
  }
}
