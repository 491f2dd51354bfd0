/**
 The institutional address check of ReservationService.CheckEmail: the
 pattern ^([a-zA-Z0-9]+)\.([a-zA-Z0-9]+)@kiu\.edu\.ge$ written out as a
 scan over characters.
 */
module KiuEmail {

  const DomainSuffix: string := "@kiu.edu.ge"

  /** The character class [a-zA-Z0-9]. */
  predicate IsAlnum(c: char)
  {
    ('a' <= c <= 'z') || ('A' <= c <= 'Z') || ('0' <= c <= '9')
  }

  predicate AllAlnum(s: string)
  {
    forall i :: 0 <= i < |s| ==> IsAlnum(s[i])
  }

  /**
   Reference definition: `s` is one or more alphanumerics, a dot, one or more
   alphanumerics, then exactly "@kiu.edu.ge".
   */
  ghost predicate IsKiuAddress(s: string)
  {
    exists first: string, last: string ::
      && |first| > 0 && AllAlnum(first)
      && |last| > 0 && AllAlnum(last)
      && s == first + "." + last + DomainSuffix
  }

  /** The length of the longest alphanumeric prefix of `s`. */
  function LeadingAlnum(s: string): (n: nat)
    ensures n <= |s|
    ensures AllAlnum(s[..n])
    ensures n < |s| ==> !IsAlnum(s[n])
  {
    if s == [] || !IsAlnum(s[0]) then 0
    else
      var n := 1 + LeadingAlnum(s[1..]);
      assert s[..n] == [s[0]] + s[1..][..n - 1];
      n
  }

  /** The scan proper: suffix, then alphanumerics, one dot, alphanumerics. */
  predicate MatchesAddress(s: string)
  {
    && |s| >= |DomainSuffix|
    && s[|s| - |DomainSuffix|..] == DomainSuffix
    && var local := s[..|s| - |DomainSuffix|];
       var n := LeadingAlnum(local);
       && 0 < n < |local| - 1
       && local[n] == '.'
       && AllAlnum(local[n + 1..])
  }

  /**
   CheckEmail. Without RegexOptions.Multiline, .NET's `$` matches at the end
   of the input and also just before a final line feed, so a trailing "\n"
   is ignored.
   */
  predicate CheckEmail(email: string)
  {
    if |email| > 0 && email[|email| - 1] == '\n' then MatchesAddress(email[..|email| - 1])
    else MatchesAddress(email)
  }

  lemma {:induction false} LeadingAlnumStopsAtSeparator(first: string, rest: string)
    requires AllAlnum(first)
    requires rest != [] && !IsAlnum(rest[0])
    ensures LeadingAlnum(first + rest) == |first|
  {
    if first != [] {
      assert (first + rest)[1..] == first[1..] + rest;
      LeadingAlnumStopsAtSeparator(first[1..], rest);
    } else {
      assert first + rest == rest;
    }
  }

  lemma MatchesAddressIsKiuAddress(s: string)
    ensures MatchesAddress(s) <==> IsKiuAddress(s)
  {
    if MatchesAddress(s) {
      var local := s[..|s| - |DomainSuffix|];
      var n := LeadingAlnum(local);
      var first, last := local[..n], local[n + 1..];
      assert local == first + "." + last;
      assert s == local + s[|s| - |DomainSuffix|..];
      assert s == first + "." + last + DomainSuffix;
    }
    if IsKiuAddress(s) {
      var first: string, last: string :|
        && |first| > 0 && AllAlnum(first)
        && |last| > 0 && AllAlnum(last)
        && s == first + "." + last + DomainSuffix;
      var local := first + "." + last;
      assert s[..|s| - |DomainSuffix|] == local;
      assert s[|s| - |DomainSuffix|..] == DomainSuffix;
      assert !IsAlnum(("." + last)[0]);
      assert local == first + ("." + last);
      LeadingAlnumStopsAtSeparator(first, "." + last);
      assert local[|first| + 1..] == last;
    }
  }

  lemma KiuAddressEndsWithSuffix(s: string)
    ensures IsKiuAddress(s) ==> |s| > 0 && s[|s| - 1] == 'e'
  {
    if IsKiuAddress(s) {
      var first: string, last: string :|
        && |first| > 0 && AllAlnum(first)
        && |last| > 0 && AllAlnum(last)
        && s == first + "." + last + DomainSuffix;
      assert s[|s| - 1] == DomainSuffix[|DomainSuffix| - 1];
    }
  }

  /**
   CheckEmail accepts exactly the addresses of the reference shape, and those
   followed by a single line feed.
   */
  lemma CheckEmailIsKiuAddress(email: string)
    ensures CheckEmail(email) <==>
              || IsKiuAddress(email)
              || (|email| > 0 && email[|email| - 1] == '\n' && IsKiuAddress(email[..|email| - 1]))
  {
    if |email| > 0 && email[|email| - 1] == '\n' {
      MatchesAddressIsKiuAddress(email[..|email| - 1]);
      KiuAddressEndsWithSuffix(email);
    } else {
      MatchesAddressIsKiuAddress(email);
    }
  }

  /** Every address of the reference shape passes. */
  lemma CheckEmailAccepts(first: string, last: string)
    requires |first| > 0 && AllAlnum(first)
    requires |last| > 0 && AllAlnum(last)
    ensures CheckEmail(first + "." + last + DomainSuffix)
  {
    var s := first + "." + last + DomainSuffix;
    assert IsKiuAddress(s);
    CheckEmailIsKiuAddress(s);
  }

  /** Sample addresses that pass. */
  lemma CheckEmailAcceptsSamples()
    ensures CheckEmail("john.doe@kiu.edu.ge")
  {
    assert AllAlnum("john") && AllAlnum("doe");
    CheckEmailAccepts("john", "doe");
    assert "john" + "." + "doe" + DomainSuffix == "john.doe@kiu.edu.ge";
  }

  /** The shortest address that passes: one character on each side of the dot. */
  lemma CheckEmailAcceptsShortest()
    ensures CheckEmail("a.b@kiu.edu.ge")
  {
    assert AllAlnum("a") && AllAlnum("b");
    CheckEmailAccepts("a", "b");
    assert "a" + "." + "b" + DomainSuffix == "a.b@kiu.edu.ge";
  }

  /** Sample addresses that fail: no dot, another domain. */
  lemma CheckEmailRejectsSamples()
    ensures !CheckEmail("john@kiu.edu.ge")
    ensures !CheckEmail("john.doe@gmail.com")
  {
  }

  /** Two dots: the second group may not contain a dot. */
  lemma CheckEmailRejectsTwoDots()
    ensures !CheckEmail("a.b.c@kiu.edu.ge")
  {
    var s := "a.b.c@kiu.edu.ge";
    var local := s[..|s| - |DomainSuffix|];
    assert local == "a" + ".b.c";
    LeadingAlnumStopsAtSeparator("a", ".b.c");
    assert local[2..] == "b.c";
    assert !IsAlnum(local[2..][1]);
  }
}
