/**
 * app/utils/validators.py: the SSN and e-mail format checks (Python regular
 * expressions applied with re.match) and the minimum-age check.
 *
 * Python's `$` matches at the very end of the string or just before a final
 * "\n", so both patterns also accept their match followed by one newline;
 * the model keeps that. Python's `\d` also accepts non-ASCII decimal digits;
 * the model reads `\d` as '0'..'9'.
 */
module Validators {

  /** An ASCII decimal digit, as the model reads `\d`. */
  predicate IsAsciiDigit(c: char) { '0' <= c <= '9' }

  predicate IsAsciiLetter(c: char) { 'a' <= c <= 'z' || 'A' <= c <= 'Z' }

  /** Every character of `s` satisfies `p`: a character class repeated. */
  predicate All(s: string, p: char -> bool) {
    forall i | 0 <= i < |s| :: p(s[i])
  }

  /** `re.match(pattern + '$', s)` for a pattern that matches exactly `body`. */
  predicate MatchesToEnd(s: string, body: string -> bool) {
    body(s) || (|s| > 0 && s[|s| - 1] == '\n' && body(s[..|s| - 1]))
  }

  // ---------------------------------------------------------------- SSN

  /** `\d{3}-\d{2}-\d{4}` matching the whole of `s`. */
  predicate SsnBody(s: string) {
    |s| == 11 && All(s[..3], IsAsciiDigit) && s[3] == '-' && All(s[4..6], IsAsciiDigit)
    && s[6] == '-' && All(s[7..], IsAsciiDigit)
  }

  /** validate_ssn */
  predicate ValidateSsn(ssn: string) {
    MatchesToEnd(ssn, SsnBody)
  }

  /** The three digit groups of an SSN joined by dashes. */
  function Ssn(area: string, group: string, serial: string): string {
    area + "-" + group + "-" + serial
  }

  ghost predicate SsnGroups(area: string, group: string, serial: string) {
    |area| == 3 && |group| == 2 && |serial| == 4
    && All(area, IsAsciiDigit) && All(group, IsAsciiDigit) && All(serial, IsAsciiDigit)
  }

  /** A string SsnBody accepts is its three groups joined by dashes. */
  lemma SsnBodyGroups(body: string)
    requires SsnBody(body)
    ensures SsnGroups(body[..3], body[4..6], body[7..])
    ensures body == Ssn(body[..3], body[4..6], body[7..])
  {
    assert body == body[..3] + "-" + body[4..6] + "-" + body[7..];
  }

  /** Three digit groups joined by dashes are accepted by SsnBody. */
  lemma SsnGroupsAccepted(area: string, group: string, serial: string)
    requires SsnGroups(area, group, serial)
    ensures SsnBody(Ssn(area, group, serial))
  {
    var body := Ssn(area, group, serial);
    assert body[..3] == area && body[4..6] == group && body[7..] == serial;
  }

  /** validate_ssn accepts exactly XXX-XX-XXXX of digits, optionally followed by one newline. */
  lemma ValidateSsnShape(ssn: string)
    ensures ValidateSsn(ssn) <==>
      exists area, group, serial | SsnGroups(area, group, serial) ::
        ssn == Ssn(area, group, serial) || ssn == Ssn(area, group, serial) + "\n"
  {
    if ValidateSsn(ssn) {
      var body := if SsnBody(ssn) then ssn else ssn[..|ssn| - 1];
      SsnBodyGroups(body);
      assert ssn == body || ssn == body + "\n";
    }
    if exists area, group, serial | SsnGroups(area, group, serial) ::
         ssn == Ssn(area, group, serial) || ssn == Ssn(area, group, serial) + "\n" {
      var area, group, serial :| SsnGroups(area, group, serial) &&
        (ssn == Ssn(area, group, serial) || ssn == Ssn(area, group, serial) + "\n");
      var body := Ssn(area, group, serial);
      SsnGroupsAccepted(area, group, serial);
      if ssn != body {
        assert ssn[..|ssn| - 1] == body;
      }
    }
  }

  // ---------------------------------------------------------------- e-mail

  /** `[a-zA-Z0-9._%+-]` */
  predicate IsLocalChar(c: char) {
    IsAsciiLetter(c) || IsAsciiDigit(c) || c in "._%+-"
  }

  /** `[a-zA-Z0-9.-]` */
  predicate IsDomainChar(c: char) {
    IsAsciiLetter(c) || IsAsciiDigit(c) || c in ".-"
  }

  /** Index of the first `c` in `s`, or |s| when there is none. */
  function FirstIndex(s: string, c: char): (i: nat)
    ensures i <= |s|
    ensures i < |s| ==> s[i] == c
    ensures forall j | 0 <= j < i :: s[j] != c
  {
    if s == [] then 0
    else if s[0] == c then 0
    else 1 + FirstIndex(s[1..], c)
  }

  /** Index of the last `c` in `s`, or -1 when there is none. */
  function LastIndex(s: string, c: char): (i: int)
    ensures -1 <= i < |s|
    ensures i >= 0 ==> s[i] == c
    ensures forall j | i < j < |s| :: s[j] != c
  {
    if s == [] then -1
    else if s[|s| - 1] == c then |s| - 1
    else LastIndex(s[..|s| - 1], c)
  }

  /**
   * `[a-zA-Z0-9._%+-]+@[a-zA-Z0-9.-]+\.[a-zA-Z]{2,}` matching the whole of `s`,
   * decided without backtracking: '@' occurs in neither class, so it must be
   * the first '@'; letters exclude '.', so the final dot is the last one.
   */
  predicate EmailBody(s: string) {
    var at := FirstIndex(s, '@');
    at < |s| && at >= 1 && All(s[..at], IsLocalChar)
    && var domain := s[at + 1..];
       All(domain, IsDomainChar)
       && var dot := LastIndex(domain, '.');
          dot >= 1 && |domain| - dot - 1 >= 2 && All(domain[dot + 1..], IsAsciiLetter)
  }

  /** validate_email */
  predicate ValidateEmail(email: string) {
    MatchesToEnd(email, EmailBody)
  }

  function Email(local: string, domain: string, tld: string): string {
    local + "@" + domain + "." + tld
  }

  /** The pieces the regular expression's groups match. */
  ghost predicate EmailParts(local: string, domain: string, tld: string) {
    |local| >= 1 && All(local, IsLocalChar)
    && |domain| >= 1 && All(domain, IsDomainChar)
    && |tld| >= 2 && All(tld, IsAsciiLetter)
  }

  /** The regular expression's meaning: some split of `s` into its three groups. */
  ghost predicate EmailPattern(s: string) {
    exists local, domain, tld | EmailParts(local, domain, tld) :: s == Email(local, domain, tld)
  }

  /** A string is its prefix, the character at `i`, and its suffix. */
  lemma SplitAround(s: string, i: nat, c: char)
    requires i < |s| && s[i] == c
    ensures s == s[..i] + [c] + s[i + 1..]
  {
  }

  /** The part of a domain remainder before its final dot is a domain group. */
  lemma DomainBeforeDot(rest: string, dot: nat)
    requires dot < |rest| && rest[dot] == '.' && All(rest, IsDomainChar)
    ensures All(rest[..dot], IsDomainChar)
    ensures rest == rest[..dot] + "." + rest[dot + 1..]
  {
    forall i | 0 <= i < dot ensures IsDomainChar(rest[..dot][i]) {
      assert rest[..dot][i] == rest[i];
    }
    SplitAround(rest, dot, '.');
  }

  /** Three groups joined by '@' and '.' witness the pattern. */
  lemma PatternWitness(s: string, local: string, rest: string, domain: string, tld: string)
    requires EmailParts(local, domain, tld)
    requires rest == domain + "." + tld && s == local + "@" + rest
    ensures EmailPattern(s)
  {
    assert s == Email(local, domain, tld);
  }

  /** Every string the decision procedure accepts splits into the three groups. */
  lemma EmailBodyHasParts(s: string)
    requires EmailBody(s)
    ensures EmailPattern(s)
  {
    var at := FirstIndex(s, '@');
    var rest := s[at + 1..];
    var dot := LastIndex(rest, '.');
    var local, domain, tld := s[..at], rest[..dot], rest[dot + 1..];
    DomainBeforeDot(rest, dot);
    SplitAround(s, at, '@');
    PatternWitness(s, local, rest, domain, tld);
  }

  /** The domain group followed by '.' and the top-level group is a valid remainder. */
  lemma DomainRest(domain: string, tld: string)
    requires EmailParts("x", domain, tld)
    ensures var rest := domain + "." + tld;
      All(rest, IsDomainChar) && LastIndex(rest, '.') == |domain|
      && rest[|domain| + 1..] == tld
  {
    var rest := domain + "." + tld;
    forall i | 0 <= i < |rest| ensures IsDomainChar(rest[i]) {
      if i < |domain| {
        assert rest[i] == domain[i];
      } else if i > |domain| {
        assert rest[i] == tld[i - |domain| - 1];
      }
    }
    assert rest[|domain|] == '.';
    assert forall j | |domain| < j < |rest| :: rest[j] == tld[j - |domain| - 1];
  }

  /** The '@' after a local group is the first '@', and it splits the string back into its two sides. */
  lemma FirstAtAfterLocal(local: string, rest: string)
    requires All(local, IsLocalChar)
    ensures var s := local + "@" + rest;
      FirstIndex(s, '@') == |local| && s[..|local|] == local && s[|local| + 1..] == rest
  {
    var s := local + "@" + rest;
    assert forall j | 0 <= j < |local| :: s[j] == local[j];
    assert s[|local|] == '@';
    assert s[..|local|] == local;
    assert s[|local| + 1..] == rest;
  }

  /** Every split into the three groups is accepted by the decision procedure. */
  lemma EmailPartsAccepted(local: string, domain: string, tld: string)
    requires EmailParts(local, domain, tld)
    ensures EmailBody(Email(local, domain, tld))
  {
    var rest := domain + "." + tld;
    assert Email(local, domain, tld) == local + "@" + rest;
    FirstAtAfterLocal(local, rest);
    DomainRest(domain, tld);
  }

  /** The decision procedure agrees with the regular expression, in both directions. */
  lemma EmailBodyMatchesPattern(s: string)
    ensures EmailBody(s) <==> EmailPattern(s)
  {
    if EmailBody(s) {
      EmailBodyHasParts(s);
    }
    if EmailPattern(s) {
      var local, domain, tld :| EmailParts(local, domain, tld) && s == Email(local, domain, tld);
      EmailPartsAccepted(local, domain, tld);
    }
  }

  /** validate_email accepts exactly the pattern, optionally followed by one newline. */
  lemma ValidateEmailShape(email: string)
    ensures ValidateEmail(email) <==>
      EmailPattern(email) || (|email| > 0 && email[|email| - 1] == '\n' && EmailPattern(email[..|email| - 1]))
  {
    EmailBodyMatchesPattern(email);
    if |email| > 0 {
      EmailBodyMatchesPattern(email[..|email| - 1]);
    }
  }

  // ---------------------------------------------------------------- age

  datatype Date = Date(year: int, month: int, day: int)

  /** Python's tuple comparison `(m1, d1) < (m2, d2)`. */
  predicate MonthDayBefore(m1: int, d1: int, m2: int, d2: int) {
    m1 < m2 || (m1 == m2 && d1 < d2)
  }

  /** Calendar order of dates, year first. */
  predicate OnOrBefore(a: Date, b: Date) {
    a.year < b.year || (a.year == b.year && !MonthDayBefore(b.month, b.day, a.month, a.day))
  }

  /** The age computed in validate_age: years elapsed, less one before the birthday. */
  function Age(dateOfBirth: Date, today: Date): int {
    today.year - dateOfBirth.year
      - (if MonthDayBefore(today.month, today.day, dateOfBirth.month, dateOfBirth.day) then 1 else 0)
  }

  const DefaultMinimumAge := 18

  /** validate_age, with `date.today()` passed in as `today`. */
  predicate ValidateAge(dateOfBirth: Date, minimumAge: int := DefaultMinimumAge, today: Date) {
    Age(dateOfBirth, today) >= minimumAge
  }

  /** Age is the number of completed years: the n-th anniversary has come iff n <= Age. */
  lemma AgeIsCompletedYears(dateOfBirth: Date, today: Date, n: int)
    ensures OnOrBefore(Date(dateOfBirth.year + n, dateOfBirth.month, dateOfBirth.day), today)
            <==> n <= Age(dateOfBirth, today)
  {
  }

  /** The check already passes on the day of the birthday itself. */
  lemma AgeOnBirthday(dateOfBirth: Date, minimumAge: int)
    ensures ValidateAge(dateOfBirth, minimumAge,
                        Date(dateOfBirth.year + minimumAge, dateOfBirth.month, dateOfBirth.day))
  {
  }

  /** Anyone born earlier than someone old enough is old enough. */
  lemma ValidateAgeMonotone(earlier: Date, later: Date, minimumAge: int, today: Date)
    requires OnOrBefore(earlier, later)
    requires ValidateAge(later, minimumAge, today)
    ensures ValidateAge(earlier, minimumAge, today)
  {
  }
}
