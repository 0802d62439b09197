/**
 * The Security module: the users the bot knows, each with a name, a host mask
 * and a set of permissions, kept both in a list (in the order they were added)
 * and in an index by name; recognising the sender of a message and demanding
 * permissions of it.
 */
module Security {
  import opened Wrappers

  /** User: its name, its mask, and the permissions it holds. */
  datatype User = User(name: string, mask: string, permissions: set<string>)

  /** The set of the strings of a request. */
  function Requested(permissions: seq<string>): (r: set<string>)
    ensures forall p :: p in r <==> p in permissions
  {
    set p | p in permissions
  }

  /**
   * User.HasPermissions: a user holding "*" may do anything, and a request of
   * exactly "*" is granted to anyone; otherwise an empty request, or one of a
   * single empty string, is refused, and any other is granted when every
   * requested permission is held.
   */
  function HasPermissions(user: User, permissions: seq<string>): (r: bool)
    ensures "*" in user.permissions || permissions == ["*"] ==> r
    ensures "*" !in user.permissions && permissions != ["*"] && (|permissions| == 0 || permissions == [""]) ==> !r
    ensures "*" !in user.permissions && permissions != ["*"] && |permissions| > 0 && permissions != [""] ==>
      (r <==> forall p :: p in permissions ==> p in user.permissions)
  {
    if "*" in user.permissions || (|permissions| == 1 && permissions[0] == "*") then true
    else if |permissions| == 0 || (|permissions| == 1 && permissions[0] == "") then false
    else Requested(permissions) <= user.permissions
  }

  /** Holding more permissions never takes a granted request away. */
  lemma HasPermissionsMonotone(user: User, more: set<string>, permissions: seq<string>)
    requires user.permissions <= more
    requires HasPermissions(user, permissions)
    ensures HasPermissions(user.(permissions := more), permissions)
  {
  }

  /** The order of a request and repetitions in it do not matter. */
  lemma HasPermissionsOfSet(user: User, a: seq<string>, b: seq<string>)
    requires Requested(a) == Requested(b) && |a| > 1 && |b| > 1
    ensures HasPermissions(user, a) == HasPermissions(user, b)
  {
  }

  /** The first user in list order whose mask matches the peer's nick!user@host. */
  function FirstMatch(users: seq<User>, nickUserHost: string, matches: (string, string) -> bool): (r: Option<User>)
    ensures r.None? <==> forall i :: 0 <= i < |users| ==> !matches(users[i].mask, nickUserHost)
    ensures r.Some? ==>
      exists i :: (0 <= i < |users| && users[i] == r.value
                   && matches(users[i].mask, nickUserHost)
                   && forall j :: 0 <= j < i ==> !matches(users[j].mask, nickUserHost))
  {
    if users == [] then None
    else if matches(users[0].mask, nickUserHost) then
      Some(users[0])
    else
      var r := FirstMatch(users[1..], nickUserHost, matches);
      if r.Some? then
        var i :| 0 <= i < |users[1..]| && users[1..][i] == r.value
          && matches(users[1..][i].mask, nickUserHost)
          && forall j :: 0 <= j < i ==> !matches(users[1..][j].mask, nickUserHost);
        assert users[i + 1] == r.value && forall j :: 0 <= j < i + 1 ==> !matches(users[j].mask, nickUserHost) by {
          forall j | 0 <= j < i + 1
            ensures !matches(users[j].mask, nickUserHost)
          {
            if j > 0 {
              assert users[j] == users[1..][j - 1];
            }
          }
        }
        r
      else r
  }

  /** The names of a list of users. */
  function Names(users: seq<User>): set<string> {
    set i | 0 <= i < |users| :: users[i].name
  }

  /** The list without the first user of the given name. */
  function RemoveNamed(users: seq<User>, name: string): seq<User> {
    if users == [] then []
    else if users[0].name == name then users[1..]
    else [users[0]] + RemoveNamed(users[1..], name)
  }

  /** Removing at the first position holding the name is RemoveNamed. */
  lemma {:induction false} RemoveNamedAt(users: seq<User>, name: string, k: nat)
    requires k < |users| && users[k].name == name
    requires forall j :: 0 <= j < k ==> users[j].name != name
    ensures RemoveNamed(users, name) == users[..k] + users[k + 1..]
  {
    if k > 0 {
      RemoveNamedAt(users[1..], name, k - 1);
      assert users[1..][..k - 1] == users[1..k];
      assert users[1..][k..] == users[k + 1..];
      assert [users[0]] + users[1..k] == users[..k];
    }
  }

  /** The Security module's user list and its index by name. */
  class Registry {
    var users: seq<User>
    var index: map<string, User>

    /** The index maps exactly the listed names, each to its user, and names are distinct. */
    predicate Valid()
      reads this
    {
      (forall i, j :: 0 <= i < j < |users| ==> users[i].name != users[j].name)
      && index.Keys == Names(users)
      && (forall i :: 0 <= i < |users| ==> index[users[i].name] == users[i])
    }

    constructor()
      ensures Valid() && users == [] && index == map[]
    {
      users := [];
      index := map[];
    }

    /** The indexer this[name]: the user of that name, or null. */
    function Get(name: string): (r: Option<User>)
      reads this
      requires Valid()
      ensures r.None? <==> forall i :: 0 <= i < |users| ==> users[i].name != name
      ensures r.Some? ==> r.value.name == name && r.value in users
    {
      if name in index then
        var i :| 0 <= i < |users| && users[i].name == name;
        Some(index[name])
      else None
    }

    /** Recognize: the first listed user whose mask matches, or null for a null or empty nick!user@host. */
    method Recognize(nickUserHost: Option<string>, matches: (string, string) -> bool) returns (r: Option<User>)
      ensures nickUserHost.None? || nickUserHost == Some("") ==> r.None?
      ensures nickUserHost.Some? && nickUserHost != Some("") ==> r == FirstMatch(users, nickUserHost.value, matches)
    {
      if nickUserHost.None? || nickUserHost.value == "" {
        return None;
      }
      var nuh := nickUserHost.value;
      var i := 0;
      while i < |users|
        invariant 0 <= i <= |users|
        invariant FirstMatch(users, nuh, matches) == FirstMatch(users[i..], nuh, matches)
      {
        if matches(users[i].mask, nuh) {
          return Some(users[i]);
        }
        assert users[i..][1..] == users[i + 1..];
        i := i + 1;
      }
      return None;
    }

    /**
     * Demand(peer, permissions): no permissions is an error, "?" alone asks
     * nothing, and otherwise the peer must be recognised and its user must hold
     * the permissions.
     */
    method Demand(nickUserHost: Option<string>, permissions: seq<string>, matches: (string, string) -> bool) returns (r: Outcome)
      ensures |permissions| == 0 ==> r == Fail(ArgumentError)
      ensures permissions == ["?"] ==> r == Pass
      ensures |permissions| > 0 && permissions != ["?"] ==>
        var user := if nickUserHost.None? || nickUserHost == Some("") then None
                    else FirstMatch(users, nickUserHost.value, matches);
        r == if user.None? || !HasPermissions(user.value, permissions) then Fail(SecurityError) else Pass
    {
      if |permissions| == 0 {
        return Fail(ArgumentError);
      }
      if |permissions| == 1 && permissions[0] == "?" {
        return Pass;
      }
      var user := Recognize(nickUserHost, matches);
      if user.None? {
        return Fail(SecurityError);
      }
      r := DemandOf(user, permissions);
    }

    /** AddUser: a second user of the same name throws; otherwise the user goes to the end of the list and into the index. */
    method AddUser(name: string, mask: string, permissions: seq<string>) returns (r: Outcome)
      requires Valid()
      modifies this
      ensures Valid()
      ensures r.Fail? <==> name in old(index)
      ensures r.Fail? ==> r.error == DuplicateName && users == old(users) && index == old(index)
      ensures r.Pass? ==> var user := User(name, mask, Requested(permissions));
        users == old(users) + [user] && index == old(index)[name := user]
    {
      if name in index {
        return Fail(DuplicateName);
      }
      var user := User(name, mask, Requested(permissions));
      ghost var before := users;
      users := users + [user];
      index := index[name := user];
      assert Names(users) == Names(before) + {name} by {
        assert forall i :: 0 <= i < |before| ==> users[i] == before[i];
        assert users[|before|] == user;
      }
      r := Pass;
    }

    /** RemoveUser: true exactly when the name was known; the user leaves both the list and the index. */
    method RemoveUser(name: string) returns (removed: bool)
      requires Valid()
      modifies this
      ensures Valid()
      ensures removed <==> name in old(index)
      ensures users == RemoveNamed(old(users), name) && index == old(index) - {name}
      ensures |users| == |old(users)| - (if removed then 1 else 0)
    {
      if name !in index {
        NotNamedUnchanged(users, name);
        return false;
      }
      var target := index[name];
      var k := 0;
      while k < |users| && users[k] != target
        invariant 0 <= k <= |users|
        invariant forall j :: 0 <= j < k ==> users[j].name != name
      {
        k := k + 1;
      }
      RemovePosition(users, index, name, k);
      RemoveNamedAt(users, name, k);
      RemoveKeepsIndex(users, index, name, k);
      users := users[..k] + users[k + 1..];
      index := index - {name};
      removed := true;
    }
  }

  /** Demand(user, permissions): a null user is an argument error, a refused request a security error. */
  method DemandOf(user: Option<User>, permissions: seq<string>) returns (r: Outcome)
    ensures user.None? ==> r == Fail(ArgumentNull)
    ensures user.Some? ==> (r == Pass <==> HasPermissions(user.value, permissions))
    ensures user.Some? && r.Fail? ==> r.error == SecurityError
  {
    if user.None? {
      return Fail(ArgumentNull);
    }
    if !HasPermissions(user.value, permissions) {
      return Fail(SecurityError);
    }
    return Pass;
  }

  lemma {:induction false} NotNamedUnchanged(users: seq<User>, name: string)
    requires name !in Names(users)
    ensures RemoveNamed(users, name) == users
  {
    if users != [] {
      assert Names(users[1..]) <= Names(users) by {
        forall i | 0 <= i < |users[1..]|
          ensures users[1..][i].name in Names(users)
        {
          assert users[1..][i] == users[i + 1];
        }
      }
      NotNamedUnchanged(users[1..], name);
      assert users[0].name in Names(users);
    }
  }

  /** The scan of RemoveUser stops at the user of that name. */
  lemma RemovePosition(users: seq<User>, index: map<string, User>, name: string, k: nat)
    requires (forall i, j :: 0 <= i < j < |users| ==> users[i].name != users[j].name)
    requires index.Keys == Names(users)
    requires forall i :: 0 <= i < |users| ==> index[users[i].name] == users[i]
    requires name in index
    requires k <= |users| && (k < |users| ==> users[k] == index[name])
    requires forall j :: 0 <= j < k ==> users[j].name != name
    ensures k < |users| && users[k].name == name
  {
    var at :| 0 <= at < |users| && users[at].name == name;
    assert at >= k;
    assert index[users[at].name] == users[at];
  }

  /** Taking out the only user of a name keeps the names distinct and the index in step. */
  lemma RemoveKeepsIndex(users: seq<User>, index: map<string, User>, name: string, k: nat)
    requires (forall i, j :: 0 <= i < j < |users| ==> users[i].name != users[j].name)
    requires index.Keys == Names(users)
    requires forall i :: 0 <= i < |users| ==> index[users[i].name] == users[i]
    requires k < |users| && users[k].name == name
    ensures var rest := users[..k] + users[k + 1..];
      (forall i, j :: 0 <= i < j < |rest| ==> rest[i].name != rest[j].name)
      && (index - {name}).Keys == Names(rest)
      && (forall i :: 0 <= i < |rest| ==> (index - {name})[rest[i].name] == rest[i])
  {
    var rest := users[..k] + users[k + 1..];
    assert forall i :: 0 <= i < |rest| ==> rest[i] == users[if i < k then i else i + 1];
    RemoveNames(users, name, k);
  }

  lemma RemoveNames(users: seq<User>, name: string, k: nat)
    requires (forall i, j :: 0 <= i < j < |users| ==> users[i].name != users[j].name)
    requires k < |users| && users[k].name == name
    ensures Names(users[..k] + users[k + 1..]) == Names(users) - {name}
  {
    var rest := users[..k] + users[k + 1..];
    assert forall i :: 0 <= i < |rest| ==> rest[i] == users[if i < k then i else i + 1];
    forall n | n in Names(users) - {name}
      ensures n in Names(rest)
    {
      var i :| 0 <= i < |users| && users[i].name == n;
      assert rest[if i < k then i else i - 1].name == n;
    }
  }
}
