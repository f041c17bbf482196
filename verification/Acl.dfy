// Room settings, and the role they grant.
module Acl {
  import opened Bytes
  import opened Wrappers
  import opened Crypto

  datatype Role = Guest | ReadOnly | ReadWrite | Admin {
    function Permission(): (p: Byte)
      ensures p < 4
    {
      match this
      case Guest => 0
      case ReadOnly => 1
      case ReadWrite => 2
      case Admin => 3
    }

    predicate MayPost() {
      ReadWrite? || Admin?
    }
  }

  datatype RoleSource = Member | Password | AllowUnknown

  datatype Grant = Grant(role: Role, source: RoleSource)

  // `passwords` lists the declared ones, strongest role first.
  datatype Settings = Settings(
    members: map<Key, Role>,
    passwords: seq<(Role, seq<Byte>)>,
    allowUnknown: Option<Role>,
    postRetention: Option<int>,
    maxPosts: Option<int>,
    clientRetention: Option<int>,
    welcome: Option<string>
  ) {
    // What the room relies on: of the posts, retention looks at the past and keeps at least
    // one. Validation sees to the second only.
    predicate Valid() {
      && (postRetention.Some? ==> postRetention.value >= 0)
      && (maxPosts.Some? ==> maxPosts.value > 0)
    }
  }

  // The strongest role whose declared, non-empty password is the one given.
  function MatchPassword(passwords: seq<(Role, seq<Byte>)>, password: seq<Byte>): (r: Option<Role>) {
    if password == [] || passwords == [] then None
    else if passwords[0].1 == password then Some(passwords[0].0)
    else MatchPassword(passwords[1..], password)
  }

  // A member's declared role is definitive; then passwords; then the policy for
  // strangers. None means no reply at all.
  function Resolve(settings: Settings, key: Key, password: seq<Byte>): (grant: Option<Grant>) {
    if key in settings.members then Some(Grant(settings.members[key], Member))
    else
      match MatchPassword(settings.passwords, password)
      case Some(role) => Some(Grant(role, Password))
      case None =>
        match settings.allowUnknown
        case Some(role) => Some(Grant(role, AllowUnknown))
        case None => None
  }

  // The role of a client known from the database, which offered no password.
  function ResolveWithoutPassword(settings: Settings, key: Key): (grant: Grant) {
    if key in settings.members then Grant(settings.members[key], Member)
    else Grant(if settings.allowUnknown.Some? then settings.allowUnknown.value else Guest, AllowUnknown)
  }

  // -- what is granted, case by case -------------------------------------------

  // A password grants the role of the first declaration it matches; a blank one, none.
  lemma {:induction false} MatchedExactly(passwords: seq<(Role, seq<Byte>)>, password: seq<Byte>)
    ensures
      match MatchPassword(passwords, password)
      case Some(role) =>
        && password != []
        && exists i ::
             && 0 <= i < |passwords| && passwords[i] == (role, password)
             && forall j :: 0 <= j < i ==> passwords[j].1 != password
      case None => password == [] || forall j :: 0 <= j < |passwords| ==> passwords[j].1 != password
  {
    if password != [] && passwords != [] && passwords[0].1 != password {
      var rest := passwords[1..];
      MatchedExactly(rest, password);
      assert forall j :: 0 <= j < |rest| ==> rest[j] == passwords[j + 1];
      if MatchPassword(rest, password).Some? {
        var i :| && 0 <= i < |rest| && rest[i] == (MatchPassword(rest, password).value, password)
                 && forall j :: 0 <= j < i ==> rest[j].1 != password;
        assert passwords[i + 1] == rest[i];
        assert forall j :: 0 < j < i + 1 ==> passwords[j] == rest[j - 1];
      }
    }
  }

  // A member has its declared role whatever password it gives. Anyone else has the role of
  // the password, or else the one for strangers, or else nothing.
  lemma ResolvedExactly(settings: Settings, key: Key, password: seq<Byte>)
    ensures key in settings.members ==>
      Resolve(settings, key, password) == Some(Grant(settings.members[key], Member))
    ensures key !in settings.members && MatchPassword(settings.passwords, password).Some? ==>
      Resolve(settings, key, password) == Some(Grant(MatchPassword(settings.passwords, password).value, Password))
    ensures key !in settings.members && MatchPassword(settings.passwords, password) == None ==>
      && (Resolve(settings, key, password) == None <==> settings.allowUnknown == None)
      && (settings.allowUnknown.Some? ==>
            Resolve(settings, key, password) == Some(Grant(settings.allowUnknown.value, AllowUnknown)))
  {
  }

  // A client known from the database gets what it would get with a blank password, and at
  // least the role of a guest: no role earned by password survives.
  lemma WithoutPasswordIsBlank(settings: Settings, key: Key)
    ensures ResolveWithoutPassword(settings, key)
         == if Resolve(settings, key, []).Some? then Resolve(settings, key, []).value else Grant(Guest, AllowUnknown)
  {
  }

  // The permission byte of a role, and who may post.
  lemma RoleBytes(role: Role)
    ensures [Guest, ReadOnly, ReadWrite, Admin][role.Permission()] == role
    ensures role.MayPost() <==> role.Permission() >= 2
  {
  }
}
