/** The user record of users/models/user.py: the display strings, the role
    properties and the email normalisation `clean` applies (Django's
    `BaseUserManager.normalize_email`). */
module Users {
  import opened Wrappers
  import opened Text

  datatype Role = Admin | Manager | RegularUser | Guest

  datatype UserStatus = Active | Inactive | Suspended | Pending

  /** One row of the users table. The password is the one last set, `None`
      for an unusable password. */
  datatype User = User(
    id: nat,
    email: string,
    firstName: string,
    lastName: string,
    phoneNumber: Option<string>,
    role: Role,
    status: UserStatus,
    isStaff: bool,
    isSuperuser: bool,
    isActive: bool,
    password: Option<string>)

  /** `check_password`: the raw password matches the one last set; an
      unusable password matches nothing. */
  predicate CheckPassword(u: User, raw: string) {
    u.password == Some(raw)
  }

  /** `get_full_name`: first and last name joined by a space and trimmed, or
      the email when that leaves nothing, which happens exactly when both
      names are blank. */
  function FullName(u: User): (r: string)
    ensures AllSpace(u.firstName) && AllSpace(u.lastName) ==> r == u.email
    ensures !(AllSpace(u.firstName) && AllSpace(u.lastName)) ==>
              r != [] && r == Strip(u.firstName + " " + u.lastName)
  {
    var joined := Strip(u.firstName + " " + u.lastName);
    StripJoinEmpty(u.firstName, u.lastName);
    if joined == [] then u.email else joined
  }

  /** Two blank names joined by a space are blank. */
  lemma JoinBlank(first: string, last: string)
    requires AllSpace(first) && AllSpace(last)
    ensures AllSpace(first + " " + last)
  {
    var joined := first + " " + last;
    forall k | 0 <= k < |joined|
      ensures IsSpace(joined[k])
    {
      if k < |first| {
        assert joined[k] == first[k];
      } else if k > |first| {
        assert joined[k] == last[k - |first| - 1];
      }
    }
  }

  /** A name with a non-space character leaves one in the join. */
  lemma JoinNotBlank(first: string, last: string)
    requires !(AllSpace(first) && AllSpace(last))
    ensures !AllSpace(first + " " + last)
  {
    var joined := first + " " + last;
    if !AllSpace(first) {
      var k :| 0 <= k < |first| && !IsSpace(first[k]);
      assert joined[k] == first[k];
    } else {
      var k :| 0 <= k < |last| && !IsSpace(last[k]);
      assert joined[|first| + 1 + k] == last[k];
    }
  }

  /** The join strips to nothing exactly when both names are blank. */
  lemma StripJoinEmpty(first: string, last: string)
    ensures Strip(first + " " + last) == [] <==> AllSpace(first) && AllSpace(last)
  {
    StripEmptyIffAllSpace(first + " " + last);
    if AllSpace(first) && AllSpace(last) {
      JoinBlank(first, last);
    } else {
      JoinNotBlank(first, last);
    }
  }

  /** The full name falls back on the email exactly when both names are blank,
      and is otherwise the trimmed join; it is never empty for a user with an
      email, and never starts or ends with whitespace unless the email does. */
  lemma FullNameFallsBackOnEmail(u: User)
    ensures FullName(u) == u.email <== AllSpace(u.firstName) && AllSpace(u.lastName)
    ensures !(AllSpace(u.firstName) && AllSpace(u.lastName)) ==>
              FullName(u) == Strip(u.firstName + " " + u.lastName)
    ensures u.email != [] ==> FullName(u) != []
    ensures !(AllSpace(u.firstName) && AllSpace(u.lastName)) ==>
              FullName(u) != [] && !IsSpace(FullName(u)[0]) && !IsSpace(FullName(u)[|FullName(u)| - 1])
  {
    var joined := u.firstName + " " + u.lastName;
    StripTrimsEnds(joined);
    if !(AllSpace(u.firstName) && AllSpace(u.lastName)) {
      assert FullName(u) == Strip(joined) && Strip(joined) != [];
    }
  }

  lemma FullNameExamples()
    ensures FullName(User(1, "x@example.com", "Jane", "Smith", None, RegularUser, Active, false, false, true, None))
            == "Jane Smith"
    ensures FullName(User(1, "test@example.com", "", "", None, RegularUser, Active, false, false, true, None))
            == "test@example.com"
  {
    StripOfTrimmed("Jane Smith");
    assert "Jane" + " " + "Smith" == "Jane Smith";
    assert AllSpace("" + " " + "");
    StripEmptyIffAllSpace("" + " " + "");
  }

  /** `get_short_name`: the first name, or the email when it is empty. */
  function ShortName(u: User): (r: string)
    ensures u.firstName != [] ==> r == u.firstName
    ensures u.firstName == [] ==> r == u.email
    ensures u.email != [] ==> r != []
  {
    if u.firstName != [] then u.firstName else u.email
  }

  /** `__str__`: the full name followed by the email in parentheses. */
  function Display(u: User): (r: string)
    ensures r == FullName(u) + " (" + u.email + ")"
    ensures |r| == |FullName(u)| + |u.email| + 3
  {
    FullName(u) + " (" + u.email + ")"
  }

  /** Names with no whitespace at their outer ends are joined by one space. */
  lemma FullNameJoinsNames(u: User)
    requires u.firstName != [] && !IsSpace(u.firstName[0])
    requires u.lastName != [] && !IsSpace(u.lastName[|u.lastName| - 1])
    ensures FullName(u) == u.firstName + " " + u.lastName
  {
    var joined := u.firstName + " " + u.lastName;
    assert joined[0] == u.firstName[0];
    assert joined[|joined| - 1] == u.lastName[|u.lastName| - 1];
    StripOfTrimmed(joined);
  }

  /** The `__str__` example of the model tests. */
  lemma DisplayExample(u: User)
    requires u.firstName == "John" && u.lastName == "Doe" && u.email == "john.doe@example.com"
    ensures Display(u) == "John Doe (john.doe@example.com)"
  {
    FullNameJoinsNames(u);
    DisplayLiteral(u.firstName, u.lastName, u.email);
  }

  lemma DisplayLiteral(first: string, last: string, email: string)
    requires first == "John" && last == "Doe" && email == "john.doe@example.com"
    ensures first + " " + last + " (" + email + ")" == "John Doe (john.doe@example.com)"
  {
  }

  predicate IsAdmin(u: User) { u.role == Admin }

  predicate IsManager(u: User) { u.role == Manager }

  /** The two role properties are never both true. */
  lemma AdminAndManagerExclusive(u: User)
    ensures !(IsAdmin(u) && IsManager(u))
    ensures IsAdmin(u) || IsManager(u) <==> u.role in {Admin, Manager}
  {
  }

  /** The email with the part after position `i` (its last `@`) lower-cased. */
  function LowerDomain(s: string, i: nat): (r: string)
    requires i < |s|
    ensures |r| == |s|
  {
    s[..i] + "@" + Lower(s[i + 1..])
  }

  /** `normalize_email`: a missing email is the empty string; the trimmed
      email is split at its last `@` and only the domain part is lower-cased.
      Without an `@` the email is returned as it came, untrimmed. */
  function NormalizeEmail(email: Option<string>): (r: string)
    ensures email.None? ==> r == []
  {
    var e := email.GetOr([]);
    var s := Strip(e);
    match LastIndexOf(s, '@')
    case None => e
    case Some(i) => LowerDomain(s, i)
  }

  /** Lower-casing the domain keeps the local part and the `@`, leaves it the
      last `@`, and leaves no upper-case ASCII letter after it. */
  lemma LowerDomainShape(s: string, i: nat)
    requires i < |s| && s[i] == '@'
    requires forall k :: i < k < |s| ==> s[k] != '@'
    ensures var r := LowerDomain(s, i);
            r[..i] == s[..i] && r[i] == '@'
            && forall k :: i < k < |r| ==> !IsUpperAscii(r[k]) && r[k] != '@'
  {
    var r := LowerDomain(s, i);
    var d := s[i + 1..];
    forall k | i < k < |r|
      ensures !IsUpperAscii(r[k]) && r[k] != '@'
    {
      assert r[k] == Lower(d)[k - i - 1];
      assert d[k - i - 1] == s[k];
    }
  }

  /** On a trimmed email, lower-casing the domain gives a trimmed email whose
      last `@` is at the same place and whose domain is already lower-case. */
  lemma LowerDomainStable(s: string, i: nat)
    requires i < |s| && s[i] == '@'
    requires forall k :: i < k < |s| ==> s[k] != '@'
    requires !IsSpace(s[0]) && !IsSpace(s[|s| - 1])
    ensures var r := LowerDomain(s, i);
            Strip(r) == r && LastIndexOf(r, '@') == Some(i) && LowerDomain(r, i) == r
  {
    var r := LowerDomain(s, i);
    var d := s[i + 1..];
    LowerDomainShape(s, i);
    assert r[0] == s[0] by {
      if i > 0 { assert r[0] == s[..i][0]; }
    }
    assert r[|r| - 1] == LowerChar(s[|s| - 1]) || i == |s| - 1 by {
      if i < |s| - 1 {
        assert r[|r| - 1] == Lower(d)[|d| - 1];
      }
    }
    StripOfTrimmed(r);
    LastIndexOfUnique(r, '@', i);
    assert r[i + 1..] == Lower(d);
    LowerIdempotent(d);
    assert r[..i] + "@" + Lower(r[i + 1..]) == r;
  }

  /** The local part of a trimmed email survives normalisation unchanged, the
      last `@` stays where it was, and the domain ends up with no upper-case
      ASCII letter. */
  lemma NormalizeKeepsLocalPart(e: string)
    requires LastIndexOf(Strip(e), '@').Some?
    ensures var i := LastIndexOf(Strip(e), '@').value;
            var r := NormalizeEmail(Some(e));
            |r| == |Strip(e)| && r[..i] == Strip(e)[..i] && r[i] == '@'
            && forall k :: i < k < |r| ==> !IsUpperAscii(r[k]) && r[k] != '@'
  {
    var s := Strip(e);
    LowerDomainShape(s, LastIndexOf(s, '@').value);
  }

  /** Normalising twice is normalising once. */
  lemma NormalizeIdempotent(email: Option<string>)
    ensures NormalizeEmail(Some(NormalizeEmail(email))) == NormalizeEmail(email)
  {
    var e := email.GetOr([]);
    var s := Strip(e);
    StripTrimsEnds(e);
    match LastIndexOf(s, '@')
    case None =>
    case Some(i) =>
      LowerDomainStable(s, i);
  }

  /** A trimmed email whose domain holds no `@` keeps its local part and
      gets its domain lower-cased. */
  lemma NormalizeSplitsAtLastAt(local: string, domain: string)
    requires local == [] || !IsSpace(local[0])
    requires domain == [] || !IsSpace(domain[|domain| - 1])
    requires forall k :: 0 <= k < |domain| ==> domain[k] != '@'
    ensures NormalizeEmail(Some(local + "@" + domain)) == local + "@" + Lower(domain)
  {
    var e := local + "@" + domain;
    var i := |local|;
    assert e[0] == '@' || !IsSpace(e[0]);
    assert e[|e| - 1] == '@' || !IsSpace(e[|e| - 1]);
    StripOfTrimmed(e);
    forall k | i < k < |e|
      ensures e[k] != '@'
    {
      assert e[k] == domain[k - i - 1];
    }
    LastIndexOfUnique(e, '@', i);
    assert e[..i] == local;
    assert e[i + 1..] == domain;
  }

  lemma LowerExampleDomain(domain: string)
    requires domain == "EXAMPLE.COM"
    ensures Lower(domain) == "example.com"
  {
    var l := Lower(domain);
    assert l[0] == 'e' && l[1] == 'x' && l[2] == 'a' && l[3] == 'm' && l[4] == 'p' && l[5] == 'l';
    assert l[6] == 'e' && l[7] == '.' && l[8] == 'c' && l[9] == 'o' && l[10] == 'm';
  }

  /** The example of the model tests: TEST@EXAMPLE.COM becomes TEST@example.com. */
  lemma NormalizeExample(local: string, domain: string)
    requires local == "TEST" && domain == "EXAMPLE.COM"
    ensures NormalizeEmail(Some(local + "@" + domain)) == local + "@" + "example.com"
  {
    NormalizeSplitsAtLastAt(local, domain);
    LowerExampleDomain(domain);
  }

  /** `User.clean`: the email is replaced by its normalised form; nothing else
      changes, and cleaning twice is cleaning once. */
  function Cleaned(u: User): (r: User)
    ensures r.(email := u.email) == u
  {
    u.(email := NormalizeEmail(Some(u.email)))
  }

  lemma CleanIdempotent(u: User)
    ensures Cleaned(Cleaned(u)) == Cleaned(u)
  {
    NormalizeIdempotent(Some(u.email));
  }
}
