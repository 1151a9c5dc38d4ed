/** roles_config.py: resolving a role's id from the environment and the
    allow/deny decision of the has_role check. */
module Roles {
  import opened Text
  import Base

  /** ROLE_MAPPING: friendly role name to the environment variable holding
      the role's id. */
  const RoleMapping: map<string, string> :=
    map["admin" := "ROLE_ID_ADMIN", "mod" := "ROLE_ID_MOD", "special" := "ROLE_ID_SPECIAL", "banker" := "ROLE_ID_BANKER"]

  /** get_role_id: the role name is lower-cased and looked up; the variable's
      value counts only when it is non-empty and all digits. */
  function GetRoleId(roleName: string, env: Base.Env): (r: Option<nat>)
    ensures r.Some? <==>
      Lower(roleName) in RoleMapping && RoleMapping[Lower(roleName)] in env
      && IsDigits(env[RoleMapping[Lower(roleName)]])
    ensures r.Some? ==> r.value == DecimalValue(env[RoleMapping[Lower(roleName)]])
  {
    var key := Lower(roleName);
    if key !in RoleMapping then None
    else
      var value := Base.GetEnv(env, RoleMapping[key], "");
      if IsDigits(value) then Some(DecimalValue(value)) else None
  }

  /** Role names are case-insensitive, and an id written in decimal reads
      back as itself. */
  lemma GetRoleIdRules(a: string, b: string, env: Base.Env, n: nat)
    ensures Lower(a) == Lower(b) ==> GetRoleId(a, env) == GetRoleId(b, env)
    ensures Lower(a) in RoleMapping ==> GetRoleId(a, env[RoleMapping[Lower(a)] := NatToString(n)]) == Some(n)
    ensures Lower(a) in RoleMapping ==> GetRoleId(a, env[RoleMapping[Lower(a)] := ""]) == None
  {
  }

  /** Why the has_role predicate blocks a command. */
  datatype Refusal = NotConfigured | MissingRole(role: string)

  /** The outcome of the has_role predicate: the command runs, or the user
      is sent the refusal's message and the command is blocked. */
  datatype Decision = Allow | Deny(refusal: Refusal)

  /** The message sent for a refusal. */
  function Message(r: Refusal): string {
    match r
    case NotConfigured => "This command is not configured correctly by the bot owner. Please contact an admin."
    case MissingRole(role) => "You do not have the required permissions (`" + Capitalize(role) + "`) to use this command."
  }

  /** The predicate's decision for a user holding the roles with the given
      ids. A missing id and an id of 0 are both falsy. */
  function CheckRole(requiredRole: string, env: Base.Env, userRoles: seq<int>): (d: Decision)
  {
    var id := GetRoleId(requiredRole, env);
    if id.None? || id.value == 0 then Deny(NotConfigured)
    else if id.value in userRoles then Allow
    else Deny(MissingRole(requiredRole))
  }

  /** The command runs exactly when the role is configured with a non-zero
      id that one of the user's roles has; an unconfigured role blocks
      everybody, and otherwise the refusal names the role. */
  lemma CheckRoleDecision(requiredRole: string, env: Base.Env, userRoles: seq<int>)
    ensures var id := GetRoleId(requiredRole, env);
      && (CheckRole(requiredRole, env, userRoles) == Allow <==>
            id.Some? && id.value != 0 && exists i :: 0 <= i < |userRoles| && userRoles[i] == id.value)
      && (CheckRole(requiredRole, env, userRoles) == Deny(NotConfigured) <==> id.None? || id.value == 0)
      && (id.Some? && id.value != 0 && id.value !in userRoles ==>
            CheckRole(requiredRole, env, userRoles) == Deny(MissingRole(requiredRole)))
  {
  }

  /** A role configured as "0" (or "000") blocks everybody, even a user
      holding a role whose id is 0. */
  lemma ZeroIdBlocks(requiredRole: string, env: Base.Env, userRoles: seq<int>)
    requires Lower(requiredRole) in RoleMapping
    requires RoleMapping[Lower(requiredRole)] in env
    requires var v := env[RoleMapping[Lower(requiredRole)]]; IsDigits(v) && DecimalValue(v) == 0
    ensures CheckRole(requiredRole, env, userRoles) == Deny(NotConfigured)
  {
  }

  /** The banker check of /award, for a banker id set in the environment. */
  lemma BankerCheck(env: Base.Env, n: nat, userRoles: seq<int>)
    requires n != 0
    ensures CheckRole("banker", env["ROLE_ID_BANKER" := NatToString(n)], userRoles)
         == (if n in userRoles then Allow else Deny(MissingRole("banker")))
  {
    LowerKeepsLower("banker");
  }

  lemma CapitalizeBanker()
    ensures Capitalize("banker") == "Banker"
  {
    LowerKeepsLower("anker");
    assert "banker"[1..] == "anker";
  }

  /** The refusal names the role capitalised. */
  lemma BankerRefusalMessage()
    ensures Message(MissingRole("banker"))
         == "You do not have the required permissions (`" + "Banker" + "`) to use this command."
  {
    CapitalizeBanker();
  }
}
