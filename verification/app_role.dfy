/** The two roles a machine can play in a pairing. */
module AppRoles {
  import opened Wrappers

  datatype AppRole = Controller | Follower

  const AllRoles: seq<AppRole> := [Controller, Follower]

  function RawValue(role: AppRole): string {
    match role
    case Controller => "controller"
    case Follower => "follower"
  }

  /** `Identifiable.id`, which the source defines as the raw value. */
  function Id(role: AppRole): (id: string)
    ensures FromRawValue(id) == Some(role)
  {
    RawValue(role)
  }

  function DisplayName(role: AppRole): string {
    match role
    case Controller => "Controller"
    case Follower => "Follower"
  }

  /** `AppRole(rawValue:)`. */
  function FromRawValue(s: string): (r: Option<AppRole>)
    ensures r.Some? ==> RawValue(r.value) == s
    ensures r.None? ==> forall role :: RawValue(role) != s
  {
    if s == "controller" then Some(Controller)
    else if s == "follower" then Some(Follower)
    else None
  }

  lemma RoleAttributes()
    ensures RawValue(Controller) == "controller" && RawValue(Follower) == "follower"
    ensures DisplayName(Controller) == "Controller" && DisplayName(Follower) == "Follower"
  {
  }

  lemma RawValueRoundTrip(role: AppRole)
    ensures FromRawValue(RawValue(role)) == Some(role)
  {
  }

  /** `allCases` lists each role exactly once and there are no others. */
  lemma ExactlyTwoRoles(role: AppRole)
    ensures role in AllRoles
    ensures |AllRoles| == 2 && AllRoles[0] != AllRoles[1]
  {
  }

  /** Identifiers tell the roles apart: two roles share an id exactly when they are the same role. */
  lemma IdIdentifies(a: AppRole, b: AppRole)
    ensures Id(a) == Id(b) <==> a == b
  {
    if Id(a) == Id(b) {
      assert Some(a) == FromRawValue(Id(a)) == FromRawValue(Id(b)) == Some(b);
    }
  }
}
