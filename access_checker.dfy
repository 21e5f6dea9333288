/** The access policy: who may act on behalf of a given identity. */
module AccessChecker {
  import opened Domain

  /** The authority that bypasses the ownership check. */
  const RoleAdmin := "ROLE_ADMIN"

  /** `authorities.stream().anyMatch(a -> a.equals(wanted))`. */
  function AnyMatch(authorities: seq<string>, wanted: string): (found: bool)
    ensures found <==> wanted in authorities
  {
    if authorities == [] then false
    else authorities[0] == wanted || AnyMatch(authorities[1..], wanted)
  }

  /** An administrator may act for anybody; anybody else only for the identity whose e-mail is
      the caller's own name. */
  function CanAccessUser(auth: Authentication, user: UserDto): (allowed: bool)
    ensures RoleAdmin in auth.authorities ==> allowed
    ensures RoleAdmin !in auth.authorities ==> (allowed <==> auth.name == user.email)
  {
    if AnyMatch(auth.authorities, RoleAdmin) then true else auth.name == user.email
  }

  /** The decision looks at the authorities, the caller's name and the target's e-mail only. */
  lemma DecisionDependsOnNamesOnly(a1: Authentication, a2: Authentication, u1: UserDto, u2: UserDto)
    requires a1.authorities == a2.authorities && a1.name == a2.name && u1.email == u2.email
    ensures CanAccessUser(a1, u1) == CanAccessUser(a2, u2)
  {
  }

  /** Only the exact string `ROLE_ADMIN` bypasses: an ordinary user, or authorities that merely
      resemble it, leave a caller that is not the target denied. */
  lemma OtherAuthoritiesDoNotBypass(auth: Authentication, user: UserDto)
    requires auth.authorities == ["ROLE_USER", "role_admin", "ROLE_ADMIN_", "ADMIN"]
    requires auth.name != user.email
    ensures !CanAccessUser(auth, user)
  {
    assert RoleAdmin != "ROLE_USER" && RoleAdmin != "ADMIN";
    assert RoleAdmin[0] != "role_admin"[0];
    assert |RoleAdmin| != |"ROLE_ADMIN_"|;
  }
}
