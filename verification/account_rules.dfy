/** The account rules of the admin services: username and email validators,
    and the ranking of a user's roles. */
module AccountRules {
  import opened Text

  /** A validator's verdict: valid, or the reason it is not. */
  datatype Check = Check(valid: bool, reason: string)

  const UsernameEmpty := "username is null or empty"
  const UsernameLength := "username length is less than 4 or more than 14 characters"
  const EmailEmpty := "email is null or empty"
  const EmailOneAt := "Email must contain exactly one '@' symbol"
  const EmailDomainDot := "Domain part of email must contain a '.'"
  const EmailMissingParts := "Invalid email, missing parts"

  /** `CheckUsername`: non-empty and 4 to 14 characters. */
  function CheckUsername(username: string): (c: Check)
    ensures c.valid <==> 4 <= |username| <= 14
    ensures c.valid <==> c.reason == ""
  {
    if username == "" then Check(false, UsernameEmpty)
    else if |username| < 4 || |username| > 14 then Check(false, UsernameLength)
    else Check(true, "")
  }

  /** `CheckEmail`: split at '@' into exactly two parts, split the domain at
      '.' into at least two, and require the local part, the first domain
      label and the rest of the domain to be non-empty. */
  function CheckEmail(email: string): (c: Check)
    ensures c.valid <==> c.reason == ""
  {
    if email == "" then Check(false, EmailEmpty)
    else
      var first := Split(email, '@');
      if |first| != 2 then Check(false, EmailOneAt)
      else
        var second := Split(first[1], '.');
        if |second| < 2 then Check(false, EmailDomainDot)
        else if first[0] == "" || second[0] == "" || Join('.', second[1..]) == "" then Check(false, EmailMissingParts)
        else Check(true, "")
  }

  /** An accepted email is a non-empty local part, one '@', a non-empty
      label without '.', a '.', and a non-empty rest; no '@' elsewhere. */
  lemma CheckEmailShape(email: string)
    requires CheckEmail(email).valid
    ensures CountChar(email, '@') == 1
    ensures var local := Split(email, '@')[0];
      var name := Split(Split(email, '@')[1], '.')[0];
      var rest := Join('.', Split(Split(email, '@')[1], '.')[1..]);
      email == local + "@" + name + "." + rest &&
      local != "" && name != "" && rest != "" &&
      '@' !in local && '@' !in name + "." + rest && '.' !in name
  {
    var first := Split(email, '@');
    assert |first| == 2;
    SplitCount(email, '@');
    var domain := first[1];
    var second := Split(domain, '.');
    assert |second| >= 2 && second[0] != "" && Join('.', second[1..]) != "";
    JoinTwo(first, '@');
    JoinSplit(email, '@');
    JoinFirst(second, '.');
    JoinSplit(domain, '.');
    var rest := Join('.', second[1..]);
    assert email == first[0] + ['@'] + domain;
    assert domain == second[0] + ['.'] + rest;
    Regroup(first[0], '@', second[0], '.', rest);
  }

  lemma Regroup(a: string, c: char, b: string, d: char, e: string)
    ensures a + [c] + (b + [d] + e) == a + [c] + b + [d] + e
  {
  }

  lemma JoinTwo(parts: seq<string>, c: char)
    requires |parts| == 2
    ensures Join(c, parts) == parts[0] + [c] + parts[1]
  {
    assert parts[1..] == [parts[1]];
  }

  lemma JoinFirst(parts: seq<string>, c: char)
    requires |parts| >= 2
    ensures Join(c, parts) == parts[0] + [c] + Join(c, parts[1..])
  {
  }

  /** Conversely, every string of that shape is accepted. */
  lemma CheckEmailAccepts(local: string, name: string, rest: string)
    requires local != "" && name != "" && rest != ""
    requires '@' !in local && '@' !in name && '@' !in rest && '.' !in name
    ensures CheckEmail(local + "@" + name + "." + rest).valid
  {
    var domain := name + "." + rest;
    var email := local + "@" + domain;
    assert email == local + "@" + name + "." + rest;
    assert '@' !in domain;
    SplitAfterPiece(local, '@', domain);
    assert email == local + ['@'] + domain;
    assert Split(domain, '@') == [domain];
    var first := Split(email, '@');
    assert first == [local, domain];
    SplitAfterPiece(name, '.', rest);
    assert domain == name + ['.'] + rest;
    var second := Split(domain, '.');
    assert second == [name] + Split(rest, '.');
    assert second[1..] == Split(rest, '.');
    JoinSplit(rest, '.');
  }

  /** A trailing '.' leaves the rest of the domain empty. */
  lemma TrailingDotRejected()
    ensures CheckEmail("a@b.").reason == EmailMissingParts
  {
    SplitAfterPiece("a", '@', "b.");
    assert "a@b." == "a" + ['@'] + "b.";
    assert Split("b.", '@') == ["b."];
    SplitAfterPiece("b", '.', "");
    assert "b." == "b" + ['.'] + "";
    assert Split("", '.') == [""];
  }

  /** A doubled '.' leaves ".c" as the rest of the domain. */
  lemma DoubledDotAccepted()
    ensures CheckEmail("a@b..c").valid
  {
    CheckEmailAccepts("a", "b", ".c");
    assert "a" + "@" + "b" + "." + ".c" == "a@b..c";
  }

  lemma TwoAtsRejected()
    ensures CheckEmail("a@@b.c").reason == EmailOneAt
  {
    SplitCount("a@@b.c", '@');
    assert CountChar("a@@b.c", '@') == 2;
  }

  lemma NoDotRejected()
    ensures CheckEmail("a@bc").reason == EmailDomainDot
  {
    SplitAfterPiece("a", '@', "bc");
    assert "a@bc" == "a" + ['@'] + "bc";
    assert Split("bc", '@') == ["bc"];
    assert Split("bc", '.') == ["bc"];
  }

  // ---------------------------------------------------------------------
  // Role ranking
  // ---------------------------------------------------------------------

  const AdminRole := "Admin"
  const MaintainerRole := "Maintainer"
  const UserRole := "User"

  /** One iteration of the ranking loop: Admin is kept, User never
      replaces Maintainer, any other value replaces what was held. */
  function RoleStep(highest: string, roleValue: string): string {
    if highest == AdminRole then highest
    else if highest == MaintainerRole && roleValue == UserRole then highest
    else roleValue
  }

  /** The role the loop holds after going through `roles`. */
  function HighestRole(roles: seq<string>): (role: string)
    ensures roles == [] ==> role == ""
    ensures roles != [] ==> role in roles
  {
    if roles == [] then "" else RoleStep(HighestRole(roles[..|roles| - 1]), roles[|roles| - 1])
  }

  predicate KnownRoles(roles: seq<string>) {
    forall k :: 0 <= k < |roles| ==> roles[k] == AdminRole || roles[k] == MaintainerRole || roles[k] == UserRole
  }

  function Ranked(roles: seq<string>): string {
    if AdminRole in roles then AdminRole
    else if MaintainerRole in roles then MaintainerRole
    else if roles != [] then UserRole
    else ""
  }

  /** Over Admin, Maintainer and User the loop returns the highest role
      present, and "" for no roles. */
  lemma {:induction false} HighestRoleRanks(roles: seq<string>)
    requires KnownRoles(roles)
    ensures HighestRole(roles) == Ranked(roles)
  {
    if roles != [] {
      var init := roles[..|roles| - 1];
      HighestRoleRanks(init);
      assert roles == init + [roles[|roles| - 1]];
    }
  }

  /** Over the three known roles, the order of a user's roles does not
      matter. */
  lemma HighestRoleOrderFree(a: seq<string>, b: seq<string>)
    requires KnownRoles(a) && multiset(a) == multiset(b)
    ensures HighestRole(a) == HighestRole(b)
  {
    assert forall x :: x in a <==> x in multiset(a);
    assert forall x :: x in b <==> x in multiset(b);
    assert KnownRoles(b) by {
      forall k | 0 <= k < |b|
        ensures b[k] == AdminRole || b[k] == MaintainerRole || b[k] == UserRole
      {
        assert b[k] in multiset(a);
      }
    }
    HighestRoleRanks(a);
    HighestRoleRanks(b);
  }

  /** Once the loop holds Admin it keeps it. */
  lemma {:induction false} AdminStays(roles: seq<string>, i: nat)
    requires i <= |roles| && HighestRole(roles[..i]) == AdminRole
    ensures HighestRole(roles) == AdminRole
    decreases |roles| - i
  {
    if i < |roles| {
      assert roles[..i + 1][..i] == roles[..i];
      AdminStays(roles, i + 1);
    } else {
      assert roles[..i] == roles;
    }
  }

  /** `GetHighestRole`: the ranking loop, leaving early once it holds
      Admin. */
  method GetHighestRole(roles: seq<string>) returns (highest: string)
    ensures highest == HighestRole(roles)
  {
    highest := "";
    var i := 0;
    while i < |roles|
      invariant 0 <= i <= |roles|
      invariant highest == HighestRole(roles[..i])
    {
      if highest == AdminRole {
        AdminStays(roles, i);
        break;
      }
      var roleValue := roles[i];
      assert roles[..i + 1][..i] == roles[..i];
      if highest == MaintainerRole && roleValue == UserRole {
        i := i + 1;
        continue;
      }
      highest := roleValue;
      i := i + 1;
    }
    if i == |roles| {
      assert roles[..i] == roles;
    }
  }

  /** With a role outside the three known ones the order matters: an
      unknown value after Maintainer replaces it. */
  lemma UnknownRoleOrder()
    ensures HighestRole(["Maintainer", "Guest"]) == "Guest"
    ensures HighestRole(["Guest", "Maintainer"]) == MaintainerRole
  {
    assert ["Maintainer", "Guest"][..1] == ["Maintainer"];
    assert ["Guest", "Maintainer"][..1] == ["Guest"];
  }
}
