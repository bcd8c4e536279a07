/** The two fixed patterns of the contact form, written as predicates over
    characters. For each pattern there is a definition that follows the shape
    of the regular expression and a direct characterisation used by the
    validator, and a lemma that the two agree on every string. */
module Patterns {
  import opened Text

  // ---------------------------------------------------------------------
  // Email: /^[^\s@]+@[^\s@]+\.[^\s@]+$/
  // ---------------------------------------------------------------------

  /** The class `[^\s@]`. */
  predicate IsAddressChar(c: char) {
    !IsSpace(c) && c != '@'
  }

  /** `[^\s@]+`: one or more address characters. */
  predicate AddressRun(s: string) {
    |s| > 0 && forall k :: 0 <= k < |s| ==> IsAddressChar(s[k])
  }

  /** The regular expression read literally: a run, an `@` at index `at`, a run,
      a `.` at index `dot`, a run, and nothing else. */
  ghost predicate MatchesEmailRegex(s: string) {
    exists at, dot :: 0 < at && at + 1 < dot && dot + 1 < |s| &&
      s[at] == '@' && s[dot] == '.' &&
      AddressRun(s[..at]) && AddressRun(s[at + 1..dot]) && AddressRun(s[dot + 1..])
  }

  /** Number of occurrences of `c` in `s`. */
  function Count(s: string, c: char): (n: nat)
    ensures n <= |s|
    ensures n == 0 <==> c !in s
  {
    if s == [] then 0 else (if s[0] == c then 1 else 0) + Count(s[1..], c)
  }

  lemma {:induction false} CountConcat(a: string, b: string, c: char)
    ensures Count(a + b, c) == Count(a, c) + Count(b, c)
  {
    if a == [] {
      assert a + b == b;
    } else {
      assert (a + b)[1..] == a[1..] + b;
      CountConcat(a[1..], b, c);
    }
  }

  /** Index of the first occurrence of `c` in `s`. */
  function IndexOf(s: string, c: char): (i: nat)
    requires c in s
    ensures i < |s| && s[i] == c && c !in s[..i]
  {
    if s[0] == c then 0 else 1 + IndexOf(s[1..], c)
  }

  /** The domain part contains a `.` that is neither its first nor its last character. */
  predicate HasInnerDot(d: string) {
    exists k :: 0 < k < |d| - 1 && d[k] == '.'
  }

  /** What the email pattern accepts, stated directly: no whitespace, exactly one
      `@`, something before it, and after it a `.` that is not at either end. */
  predicate IsEmail(s: string) {
    && NoSpace(s)
    && Count(s, '@') == 1
    && var at := IndexOf(s, '@');
       0 < at && HasInnerDot(s[at + 1..])
  }

  /** Splitting at the first `c` of a string that holds exactly one `c` leaves no
      `c` on either side. */
  lemma OnlyOneAt(s: string, c: char, at: nat)
    requires at < |s| && s[at] == c && c !in s[..at]
    ensures Count(s, c) == 1 <==> c !in s[at + 1..]
  {
    assert s == s[..at] + ([s[at]] + s[at + 1..]);
    CountConcat(s[..at], [s[at]] + s[at + 1..], c);
    CountConcat([s[at]], s[at + 1..], c);
  }

  /** Every string the regular expression accepts satisfies the characterisation. */
  lemma EmailRegexSound(s: string, at: nat, dot: nat)
    requires 0 < at && at + 1 < dot && dot + 1 < |s|
    requires s[at] == '@' && s[dot] == '.'
    requires AddressRun(s[..at]) && AddressRun(s[at + 1..dot]) && AddressRun(s[dot + 1..])
    ensures IsEmail(s)
  {
    var local, host, tld := s[..at], s[at + 1..dot], s[dot + 1..];
    var domain := s[at + 1..];
    assert s == local + [s[at]] + domain;
    assert domain == host + [s[dot]] + tld;
    forall k | 0 <= k < |s| ensures !IsSpace(s[k]) {
      if k < at {
        assert s[k] == local[k];
      } else if at + 1 <= k < dot {
        assert s[k] == host[k - at - 1];
      } else if dot < k {
        assert s[k] == tld[k - dot - 1];
      }
    }
    forall k | 0 <= k < |domain| ensures domain[k] != '@' {
      if k < |host| {
        assert domain[k] == host[k];
      } else if |host| < k {
        assert domain[k] == tld[k - |host| - 1];
      }
    }
    forall k | 0 <= k < at ensures local[k] != '@' {
      assert IsAddressChar(local[k]);
    }
    OnlyOneAt(s, '@', at);
    assert IndexOf(s, '@') == at;
    assert domain[dot - at - 1] == '.';
  }

  /** Every string that satisfies the characterisation is accepted by the regular expression. */
  lemma EmailRegexComplete(s: string)
    requires IsEmail(s)
    ensures MatchesEmailRegex(s)
  {
    var at := IndexOf(s, '@');
    var domain := s[at + 1..];
    var k :| 0 < k < |domain| - 1 && domain[k] == '.';
    var dot := at + 1 + k;
    OnlyOneAt(s, '@', at);
    var local, host, tld := s[..at], s[at + 1..dot], s[dot + 1..];
    assert s[dot] == '.';
    forall j | 0 <= j < |local| ensures IsAddressChar(local[j]) {
      assert local[j] == s[j];
    }
    forall j | 0 <= j < |host| ensures IsAddressChar(host[j]) {
      assert host[j] == domain[j];
    }
    forall j | 0 <= j < |tld| ensures IsAddressChar(tld[j]) {
      assert tld[j] == domain[k + 1 + j];
    }
    assert AddressRun(local) && AddressRun(host) && AddressRun(tld);
  }

  /** The direct characterisation accepts exactly what the regular expression accepts. */
  lemma EmailRegexIff(s: string)
    ensures MatchesEmailRegex(s) <==> IsEmail(s)
  {
    if MatchesEmailRegex(s) {
      var at, dot :| 0 < at && at + 1 < dot && dot + 1 < |s| &&
        s[at] == '@' && s[dot] == '.' &&
        AddressRun(s[..at]) && AddressRun(s[at + 1..dot]) && AddressRun(s[dot + 1..]);
      EmailRegexSound(s, at, dot);
    }
    if IsEmail(s) {
      EmailRegexComplete(s);
    }
  }

  // ---------------------------------------------------------------------
  // Phone: /^[\+]?[1-9][\d]{0,15}$/, applied after whitespace is removed
  // ---------------------------------------------------------------------

  /** `[1-9][\d]{0,15}`: a digit 1-9 followed by 0 to 15 digits. */
  predicate PhoneDigits(d: string) {
    1 <= |d| <= 16 && '1' <= d[0] <= '9' && forall k :: 1 <= k < |d| ==> IsDigit(d[k])
  }

  /** The regular expression read literally: the optional `+` is either absent or present. */
  predicate MatchesPhoneRegex(t: string) {
    PhoneDigits(t) || (|t| > 0 && t[0] == '+' && PhoneDigits(t[1..]))
  }

  /** Number of digits in `s`. */
  function DigitCount(s: string): (n: nat)
    ensures n <= |s|
  {
    if s == [] then 0 else (if IsDigit(s[0]) then 1 else 0) + DigitCount(s[1..])
  }

  /** The number without its optional leading `+`. */
  function WithoutPlus(t: string): string {
    if |t| > 0 && t[0] == '+' then t[1..] else t
  }

  /** What the phone pattern accepts, stated directly: after an optional leading
      `+`, only digits, 1 to 16 of them, the first not `0`. */
  predicate IsPhone(t: string) {
    var d := WithoutPlus(t);
    && (forall k :: 0 <= k < |d| ==> IsDigit(d[k]))
    && 1 <= DigitCount(d) <= 16
    && d[0] != '0'
  }

  lemma {:induction false} AllDigitsCount(d: string)
    requires forall k :: 0 <= k < |d| ==> IsDigit(d[k])
    ensures DigitCount(d) == |d|
  {
    if d != [] {
      AllDigitsCount(d[1..]);
    }
  }

  /** The direct characterisation accepts exactly what the regular expression accepts. */
  lemma PhoneRegexIff(t: string)
    ensures MatchesPhoneRegex(t) <==> IsPhone(t)
  {
    var d := WithoutPlus(t);
    if IsPhone(t) {
      AllDigitsCount(d);
      assert PhoneDigits(d);
    }
    if PhoneDigits(d) {
      assert forall k :: 0 <= k < |d| ==> IsDigit(d[k]);
      AllDigitsCount(d);
    }
    if |t| > 0 && t[0] == '+' {
      assert !PhoneDigits(t);
    }
  }
}
