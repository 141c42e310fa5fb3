/** Permission patterns of frontend/src/middleware.ts: parts between colons, and `*` for
    everything from there on. */
module Permissions {
  import opened Text

  /** The parts before the first `*`. */
  function Fixed(parts: seq<string>): (r: seq<string>)
    ensures r <= parts && "*" !in r
    ensures |r| < |parts| ==> parts[|r|] == "*"
  {
    if parts == [] || parts[0] == "*" then [] else [parts[0]] + Fixed(parts[1..])
  }

  function Scope(permission: string): seq<string> { Fixed(Split(permission, ':')) }

  /** Does a granted pattern cover what is required? */
  predicate Matches(granted: string, required: string) {
    granted != "" && required != "" && Scope(granted) <= Split(required, ':')
  }

  method PermissionMatches(granted: string, required: string) returns (r: bool)
    ensures r == Matches(granted, required)
  {
    hide Split, Fixed;
    if granted == "" || required == "" { return false; }
    if granted == "*" {
      SplitNone("*", ':');
      return true;
    }
    if granted == required { return true; }
    var parts := Split(granted, ':');
    var reqParts := Split(required, ':');
    for i := 0 to |parts|
      invariant i <= |reqParts| && parts[..i] == reqParts[..i]
      invariant "*" !in parts[..i]
    {
      FixedLength(parts, i);
      if parts[i] == "*" { return true; }
      if i >= |reqParts| || reqParts[i] != parts[i] { return false; }
      assert parts[..i + 1] == parts[..i] + [parts[i]];
    }
    FixedLength(parts, |parts|);
    return true;
  }

  /** `Fixed` goes at least as far as no `*` is seen, and stops where one is. */
  lemma FixedLength(parts: seq<string>, i: nat)
    requires i <= |parts| && "*" !in parts[..i]
    ensures i <= |Fixed(parts)|
    ensures i < |parts| ==> (parts[i] == "*" <==> |Fixed(parts)| == i)
    ensures Fixed(parts) == parts[..|Fixed(parts)|]
  {
    var n := |Fixed(parts)|;
    forall k | 0 <= k < i ensures parts[k] != "*" { assert parts[k] == parts[..i][k]; }
    if i < n { assert Fixed(parts)[i] == parts[i]; }
  }

  /** A granted pattern covers exactly the requirements with a narrower scope. */
  lemma MatchesIff(granted: string, required: string)
    ensures Matches(granted, required) <==>
      granted != "" && required != "" && Scope(granted) <= Scope(required)
  {
    hide Split, Fixed;
    var parts, a, b := Split(required, ':'), Scope(granted), Scope(required);
    if a <= parts {
      FixedLength(parts, |a|);
      assert a == parts[..|a|];
    }
  }

  lemma MatchesSelf(p: string)
    requires p != ""
    ensures Matches(p, p)
  {
  }

  lemma MatchesTransitive(a: string, b: string, c: string)
    requires Matches(a, b) && Matches(b, c)
    ensures Matches(a, c)
  {
    hide Split, Fixed;
    MatchesIff(a, b);
    MatchesIff(b, c);
    MatchesIff(a, c);
  }

  /** Two patterns without `*` cover each other only if they are the same. */
  lemma MatchesAntisymmetric(a: string, b: string)
    requires "*" !in Split(a, ':') && "*" !in Split(b, ':')
    ensures Matches(a, b) && Matches(b, a) <==> a == b && a != ""
  {
    hide Split;
    if Matches(a, b) && Matches(b, a) {
      MatchesIff(a, b);
      MatchesIff(b, a);
      AllFixed(a);
      AllFixed(b);
      JoinSplit(a, ':');
      JoinSplit(b, ':');
      assert Scope(a) == Scope(b);
    }
    if a == b && a != "" { MatchesSelf(a); }
  }

  lemma AllFixed(a: string)
    requires "*" !in Split(a, ':')
    ensures Scope(a) == Split(a, ':')
  {
    hide Split, Fixed;
    var parts := Split(a, ':');
    assert parts[..|parts|] == parts;
    FixedLength(parts, |parts|);
    assert |Fixed(parts)| == |parts|;
  }

  // ---------------------------------------------------------------- users

  /** Permissions that are not an array count as none. */
  datatype User = User(role: string, permissions: seq<string>)

  predicate Privileged(role: string) { role == "*" || role == "rootAdmin" || role == "admin" }

  predicate HasPermission(user: Option<User>, required: string) {
    && user.Some?
    && (|| Privileged(user.value.role)
        || "*" in user.value.permissions
        || exists p :: p in user.value.permissions && Matches(p, required))
  }

  /** May `v` do everything `u` may? */
  ghost predicate Covers(v: Option<User>, u: Option<User>) {
    forall r :: r != "" && HasPermission(u, r) ==> HasPermission(v, r)
  }

  /** What a user has, it has for everything the permission covers. */
  lemma HasNarrower(user: Option<User>, p: string, r: string)
    requires HasPermission(user, p) && Matches(p, r)
    ensures HasPermission(user, r)
  {
    hide Matches;
    if !Privileged(user.value.role) && "*" !in user.value.permissions {
      var q :| q in user.value.permissions && Matches(q, p);
      MatchesTransitive(q, p, r);
    }
  }

  /** Between users without a privileged role, one covers another if and only if it has each of
      the other's permissions. */
  lemma CoversIff(v: User, u: User)
    requires !Privileged(u.role)
    ensures Covers(Some(v), Some(u)) <==>
      forall p | p in u.permissions && p != "" :: HasPermission(Some(v), p)
  {
    hide Privileged;
    if Covers(Some(v), Some(u)) {
      forall p | p in u.permissions && p != "" ensures HasPermission(Some(v), p) {
        MatchesSelf(p);
        assert HasPermission(Some(u), p);
      }
    }
    if forall p | p in u.permissions && p != "" :: HasPermission(Some(v), p) {
      forall r | r != "" && HasPermission(Some(u), r) ensures HasPermission(Some(v), r) {
        if "*" in u.permissions {
          StarMatches(r);
          HasNarrower(Some(v), "*", r);
        } else {
          var p :| p in u.permissions && Matches(p, r);
          HasNarrower(Some(v), p, r);
        }
      }
    }
  }

  lemma StarMatches(r: string)
    requires r != ""
    ensures Matches("*", r)
  {
    SplitNone("*", ':');
  }

  /** Adding a permission changes what a user may do if and only if it is not empty and the user
      did not have it. */
  lemma AddingIff(u: User, p: string)
    ensures var more := u.(permissions := u.permissions + [p]);
      (forall r | r != "" :: HasPermission(Some(more), r) == HasPermission(Some(u), r)) <==>
      p == "" || HasPermission(Some(u), p)
  {
    var more := u.(permissions := u.permissions + [p]);
    assert forall q :: q in more.permissions <==> q in u.permissions || q == p;
    hide Matches, Privileged;
    if !Privileged(u.role) {
      CoversIff(u, more);
      if p != "" { MatchesSelf(p); }
      forall r | HasPermission(Some(u), r) ensures HasPermission(Some(more), r) {
        if "*" !in u.permissions {
          var q :| q in u.permissions && Matches(q, r);
          assert q in more.permissions;
        }
      }
      forall q | q in u.permissions && q != "" ensures HasPermission(Some(u), q) { MatchesSelf(q); }
    }
  }

  /** Three roles may do everything, any other role nothing by itself; `*` is every permission;
      without a user there is none. */
  lemma RolesMean(role: string, permissions: seq<string>, required: string)
    ensures HasPermission(Some(User(role, [])), required) <==> role in {"*", "rootAdmin", "admin"}
    ensures "*" in permissions || role in {"*", "rootAdmin", "admin"} ==>
      HasPermission(Some(User(role, permissions)), required)
    ensures !HasPermission(None, required)
  {
  }
}
