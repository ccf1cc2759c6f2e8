/**
 * The two string enumerations of the application. Both are `StrEnum`s whose
 * members are declared with `auto()`, so each member's string value is its
 * name in lower case.
 */
module Enums {
  import opened Wrappers

  /** The role of a user. */
  datatype UserRole = Admin | Moderator | User

  /** The status of a login session. */
  datatype SessionStatus = Active | Inactive | Expired

  /** Every member of each enumeration, in declaration order. */
  const AllRoles: seq<UserRole> := [Admin, Moderator, User]
  const AllStatuses: seq<SessionStatus> := [Active, Inactive, Expired]

  /** The member names as declared. */
  function RoleName(r: UserRole): string {
    match r
    case Admin => "ADMIN"
    case Moderator => "MODERATOR"
    case User => "USER"
  }

  function StatusName(s: SessionStatus): string {
    match s
    case Active => "ACTIVE"
    case Inactive => "INACTIVE"
    case Expired => "EXPIRED"
  }

  /** ASCII lower-casing of one character. */
  function LowerChar(c: char): char {
    if 'A' <= c <= 'Z' then (c as int - 'A' as int + 'a' as int) as char else c
  }

  /** `str.lower` on ASCII text, which is what `auto()` applies to a member name. */
  function Lower(s: string): string {
    seq(|s|, i requires 0 <= i < |s| => LowerChar(s[i]))
  }

  /** The string value `auto()` gives a member. */
  function RoleValue(r: UserRole): string {
    Lower(RoleName(r))
  }

  function StatusValue(s: SessionStatus): string {
    Lower(StatusName(s))
  }

  /** The string values, spelled out. */
  lemma RoleValues()
    ensures RoleValue(Admin) == "admin"
    ensures RoleValue(Moderator) == "moderator"
    ensures RoleValue(User) == "user"
  {
  }

  lemma StatusValues()
    ensures StatusValue(Active) == "active"
    ensures StatusValue(Inactive) == "inactive"
    ensures StatusValue(Expired) == "expired"
  {
  }

  /** `UserRole(s)`: the member whose value is `s`, or none (a `ValueError`). */
  function RoleFromValue(s: string): (r: Option<UserRole>)
    ensures r.Some? ==> RoleValue(r.value) == s
    ensures r.None? ==> forall x :: RoleValue(x) != s
  {
    RoleValues();
    if s == "admin" then Some(Admin)
    else if s == "moderator" then Some(Moderator)
    else if s == "user" then Some(User)
    else None
  }

  /** `SessionStatus(s)`: the member whose value is `s`, or none. */
  function StatusFromValue(s: string): (r: Option<SessionStatus>)
    ensures r.Some? ==> StatusValue(r.value) == s
    ensures r.None? ==> forall x :: StatusValue(x) != s
  {
    StatusValues();
    if s == "active" then Some(Active)
    else if s == "inactive" then Some(Inactive)
    else if s == "expired" then Some(Expired)
    else None
  }

  /** Each enumeration has exactly its three declared members. */
  lemma ExactlyThreeMembers()
    ensures forall r: UserRole :: r in AllRoles
    ensures forall s: SessionStatus :: s in AllStatuses
    ensures |AllRoles| == 3 && |AllStatuses| == 3
    ensures forall i, j :: 0 <= i < j < 3 ==> AllRoles[i] != AllRoles[j]
    ensures forall i, j :: 0 <= i < j < 3 ==> AllStatuses[i] != AllStatuses[j]
  {
    forall r: UserRole ensures r in AllRoles {
      match r
      case Admin => assert AllRoles[0] == r;
      case Moderator => assert AllRoles[1] == r;
      case User => assert AllRoles[2] == r;
    }
    forall s: SessionStatus ensures s in AllStatuses {
      match s
      case Active => assert AllStatuses[0] == s;
      case Inactive => assert AllStatuses[1] == s;
      case Expired => assert AllStatuses[2] == s;
    }
  }

  /** Converting a member to its string and back gives the member. */
  lemma RoleRoundTrip(r: UserRole)
    ensures RoleFromValue(RoleValue(r)) == Some(r)
  {
    RoleValues();
  }

  lemma StatusRoundTrip(s: SessionStatus)
    ensures StatusFromValue(StatusValue(s)) == Some(s)
  {
    StatusValues();
  }

  /** Distinct members have distinct string values. */
  lemma RoleValueInjective(a: UserRole, b: UserRole)
    requires RoleValue(a) == RoleValue(b)
    ensures a == b
  {
    RoleRoundTrip(a);
    RoleRoundTrip(b);
  }

  lemma StatusValueInjective(a: SessionStatus, b: SessionStatus)
    requires StatusValue(a) == StatusValue(b)
    ensures a == b
  {
    StatusRoundTrip(a);
    StatusRoundTrip(b);
  }
}
