// The form in which the resolver looks an address up: what matches the pattern
// \d{1,3}\.\d{1,3}\. somewhere is taken as it is, everything else as the local host.
module Address {
  import opened Wrappers

  function LeadingDigits(s: string): (n: nat)
    ensures n <= |s|
  {
    if s != [] && '0' <= s[0] <= '9' then 1 + LeadingDigits(s[1..]) else 0
  }

  // The length of \d{1,3}\. at the front, or 0.
  function Group(s: string): (n: nat)
    ensures n <= |s|
  {
    var d := LeadingDigits(s);
    if 1 <= d <= 3 && d < |s| && s[d] == '.' then d + 1 else 0
  }

  // Whether the pattern matches at the front, or anywhere.
  predicate MatchesHere(s: string) {
    Group(s) > 0 && Group(s[Group(s)..]) > 0
  }

  predicate Matches(s: string) {
    s != [] && (MatchesHere(s) || Matches(s[1..]))
  }

  function Normal(addr: string): string {
    if Matches(addr) then addr else "127.0.0.1"
  }

  // ---- What the pattern means ----

  predicate Digits(s: string) {
    1 <= |s| <= 3 && forall i :: 0 <= i < |s| ==> '0' <= s[i] <= '9'
  }

  ghost predicate IsMatch(s: string, before: string, a: string, b: string, after: string) {
    Digits(a) && Digits(b) && s == before + (a + "." + (b + "." + after))
  }

  lemma {:induction false} LeadingDigitsAre(a: string, rest: string)
    requires (forall i :: 0 <= i < |a| ==> '0' <= a[i] <= '9') && rest != [] && !('0' <= rest[0] <= '9')
    ensures LeadingDigits(a + rest) == |a|
  {
    if a == [] {
      assert a + rest == rest;
    } else {
      assert (a + rest)[1..] == a[1..] + rest;
      LeadingDigitsAre(a[1..], rest);
    }
  }

  lemma {:induction false} LeadingAreDigits(s: string)
    ensures forall i :: 0 <= i < LeadingDigits(s) ==> '0' <= s[i] <= '9'
  {
    if s != [] && '0' <= s[0] <= '9' {
      LeadingAreDigits(s[1..]);
    }
  }

  lemma GroupIff(s: string, a: string, rest: string)
    requires Digits(a) && s == a + "." + rest
    ensures Group(s) == |a| + 1 && s[Group(s)..] == rest
  {
    assert s == a + ("." + rest);
    LeadingDigitsAre(a, "." + rest);
  }

  // Three digits at most, a dot, three digits at most and a dot stand somewhere in s.
  ghost predicate HasDottedPair(s: string) {
    exists before, a, b, after :: IsMatch(s, before, a, b, after)
  }

  // Scanning for the leftmost match finds one exactly when there is one.
  lemma {:induction false} MatchesIff(s: string)
    ensures Matches(s) <==> HasDottedPair(s)
  {
    if Matches(s) {
      MatchesSound(s);
    }
    if before, a, b, after :| IsMatch(s, before, a, b, after) {
      MatchesComplete(s, before, a, b, after);
    }
  }

  lemma {:induction false} MatchesSound(s: string)
    requires Matches(s)
    ensures exists before, a, b, after :: IsMatch(s, before, a, b, after)
  {
    if MatchesHere(s) {
      MatchesHereSound(s);
    } else {
      MatchesSound(s[1..]);
      var before, a, b, after :| IsMatch(s[1..], before, a, b, after);
      MatchLater(s, before, a, b, after);
    }
  }

  lemma MatchLater(s: string, before: string, a: string, b: string, after: string)
    requires s != "" && IsMatch(s[1..], before, a, b, after)
    ensures IsMatch(s, [s[0]] + before, a, b, after)
  {
    var rest := a + "." + (b + "." + after);
    assert s == [s[0]] + s[1..] == [s[0]] + (before + rest) == ([s[0]] + before) + rest;
  }

  lemma MatchesHereSound(s: string)
    requires MatchesHere(s)
    ensures exists a, b, after :: IsMatch(s, "", a, b, after)
  {
    var t := s[Group(s)..];
    GroupSound(s);
    GroupSound(t);
    MatchFirst(s, s[..Group(s) - 1], t, t[..Group(t) - 1], t[Group(t)..]);
  }

  lemma MatchFirst(s: string, a: string, t: string, b: string, after: string)
    requires Digits(a) && Digits(b) && s == a + ("." + t) && t == b + ("." + after)
    ensures IsMatch(s, "", a, b, after)
  {
    Regroup(a, ".", b + "." + after);
    Regroup(b, ".", after);
    var rest := a + "." + (b + "." + after);
    assert "" + rest == rest;
  }

  lemma GroupSound(s: string)
    requires Group(s) > 0
    ensures Digits(s[..Group(s) - 1]) && s == s[..Group(s) - 1] + ("." + s[Group(s)..])
  {
    LeadingAreDigits(s);
  }

  lemma {:induction false} MatchesComplete(s: string, before: string, a: string, b: string, after: string)
    requires IsMatch(s, before, a, b, after)
    ensures Matches(s)
    decreases |before|
  {
    if before == "" {
      GroupIff(s, a, b + "." + after);
      GroupIff(b + "." + after, b, after);
    } else {
      assert s[1..] == before[1..] + (a + "." + (b + "." + after));
      MatchesComplete(s[1..], before[1..], a, b, after);
    }
  }
}
