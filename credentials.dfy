/**
 * The field checks the login and sign-up screens share: the e-mail pattern
 * `^[A-Za-z0-9+_.-]+@[A-Za-z0-9.-]+$` and the six-character password rule.
 */
module Credentials {
  import opened Text
  import opened Pattern

  const MinPasswordLength := 6

  /** `[A-Za-z0-9+_.-]`: the characters allowed before the '@'. */
  const LocalRanges := [Range('A', 'Z'), Range('a', 'z'), Range('0', '9'),
                        Range('+', '+'), Range('_', '_'), Range('.', '.'), Range('-', '-')]

  /** `[A-Za-z0-9.-]`: the characters allowed after the '@'. */
  const DomainRanges := [Range('A', 'Z'), Range('a', 'z'), Range('0', '9'),
                         Range('.', '.'), Range('-', '-')]

  const EmailPattern := Cat(Plus(Class(LocalRanges)), Cat(Lit('@'), Plus(Class(DomainRanges))))

  predicate IsLocalChar(c: char) {
    IsLetter(c) || IsDigit(c) || c == '+' || c == '_' || c == '.' || c == '-'
  }

  predicate IsDomainChar(c: char) {
    IsLetter(c) || IsDigit(c) || c == '.' || c == '-'
  }

  /** `isEmailValid`: the whole address matches the e-mail pattern. */
  predicate IsEmailValid(email: string) {
    Matches(EmailPattern, email)
  }

  /** `isPasswordValid`: at least six characters. */
  predicate IsPasswordValid(password: string) {
    |password| >= MinPasswordLength
  }

  /**
   * The shape the e-mail pattern stands for: an '@' at some position `m` with at least
   * one character on each side, only local-part characters before it and only domain
   * characters after it.
   */
  predicate WellFormedEmail(s: string) {
    exists m :: 0 < m < |s| - 1 && s[m] == '@' &&
      (forall k :: 0 <= k < m ==> IsLocalChar(s[k])) &&
      (forall k :: m < k < |s| ==> IsDomainChar(s[k]))
  }

  lemma LocalClass(c: char)
    ensures InClass(c, LocalRanges) <==> IsLocalChar(c)
  {
    if IsLocalChar(c) {
      if IsLetter(c) {
        if 'A' <= c <= 'Z' { assert LocalRanges[0] in LocalRanges; } else { assert LocalRanges[1] in LocalRanges; }
      } else if IsDigit(c) {
        assert LocalRanges[2] in LocalRanges;
      } else if c == '+' {
        assert LocalRanges[3] in LocalRanges;
      } else if c == '_' {
        assert LocalRanges[4] in LocalRanges;
      } else if c == '.' {
        assert LocalRanges[5] in LocalRanges;
      } else {
        assert LocalRanges[6] in LocalRanges;
      }
    }
  }

  lemma DomainClass(c: char)
    ensures InClass(c, DomainRanges) <==> IsDomainChar(c)
  {
    if IsDomainChar(c) {
      if IsLetter(c) {
        if 'A' <= c <= 'Z' { assert DomainRanges[0] in DomainRanges; } else { assert DomainRanges[1] in DomainRanges; }
      } else if IsDigit(c) {
        assert DomainRanges[2] in DomainRanges;
      } else if c == '.' {
        assert DomainRanges[3] in DomainRanges;
      } else {
        assert DomainRanges[4] in DomainRanges;
      }
    }
  }

  /** The part of the pattern from the '@' on: an '@' followed by a non-empty run of domain characters. */
  lemma DomainTail(t: string)
    ensures Matches(Cat(Lit('@'), Plus(Class(DomainRanges))), t) <==>
            |t| >= 2 && t[0] == '@' && forall k :: 1 <= k < |t| ==> IsDomainChar(t[k])
  {
    assert forall u :: Matches(Lit('@'), u) ==> |u| == 1;
    CatFixed(Lit('@'), Plus(Class(DomainRanges)), 1, t);
    if |t| >= 1 {
      PlusClass(DomainRanges, t[1..]);
      assert t[..1][0] == t[0];
      assert Matches(Lit('@'), t[..1]) <==> t[0] == '@' by {
        assert Range('@', '@') in [Range('@', '@')];
      }
      forall k | 1 <= k < |t| ensures t[1..][k - 1] == t[k] && (InClass(t[k], DomainRanges) <==> IsDomainChar(t[k])) {
        DomainClass(t[k]);
      }
    }
  }

  /** `isEmailValid` holds exactly for the well-formed addresses. */
  lemma EmailPatternMeaning(s: string)
    ensures IsEmailValid(s) <==> WellFormedEmail(s)
  {
    var local := Plus(Class(LocalRanges));
    var tail := Cat(Lit('@'), Plus(Class(DomainRanges)));
    if IsEmailValid(s) {
      var m :| 0 <= m <= |s| && Matches(local, s[..m]) && Matches(tail, s[m..]);
      PlusClass(LocalRanges, s[..m]);
      DomainTail(s[m..]);
      forall k | 0 <= k < m ensures IsLocalChar(s[k]) {
        assert s[..m][k] == s[k];
        LocalClass(s[k]);
      }
      forall k | m < k < |s| ensures IsDomainChar(s[k]) {
        assert s[m..][k - m] == s[k];
      }
      assert s[m..][0] == s[m];
      assert 0 < m < |s| - 1 && s[m] == '@';
    }
    if WellFormedEmail(s) {
      var m :| 0 < m < |s| - 1 && s[m] == '@' &&
        (forall k :: 0 <= k < m ==> IsLocalChar(s[k])) &&
        (forall k :: m < k < |s| ==> IsDomainChar(s[k]));
      PlusClass(LocalRanges, s[..m]);
      forall k | 0 <= k < m ensures InClass(s[..m][k], LocalRanges) {
        assert s[..m][k] == s[k];
        LocalClass(s[k]);
      }
      DomainTail(s[m..]);
      forall k | 1 <= k < |s[m..]| ensures IsDomainChar(s[m..][k]) {
        assert s[m..][k] == s[m + k];
      }
      assert Matches(local, s[..m]) && Matches(tail, s[m..]);
    }
  }

  /** A valid address contains exactly one '@'. */
  lemma ValidEmailHasOneAt(s: string)
    requires IsEmailValid(s)
    ensures Count(s, '@') == 1
  {
    EmailPatternMeaning(s);
    var m :| 0 < m < |s| - 1 && s[m] == '@' &&
      (forall k :: 0 <= k < m ==> IsLocalChar(s[k])) &&
      (forall k :: m < k < |s| ==> IsDomainChar(s[k]));
    assert s == s[..m] + [s[m]] + s[m + 1..];
    CountAppend(s[..m] + [s[m]], s[m + 1..], '@');
    CountAppend(s[..m], [s[m]], '@');
    CountAbsent(s[..m], '@');
    CountAbsent(s[m + 1..], '@');
    assert Count([s[m]], '@') == 1;
  }
}
