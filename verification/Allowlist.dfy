/** Host patterns: `_matches_allowlist` of `backend/core/http_client.py`.  `lower` stands for
    `str.lower`. */
module Allowlist {
  import opened Text

  predicate EndsWith(s: string, suffix: string) { |suffix| <= |s| && s[|s| - |suffix|..] == suffix }

  /** `s.lstrip(".")`. */
  function LStripDots(s: string): string { if s != "" && s[0] == '.' then LStripDots(s[1..]) else s }

  /** One turn of the loop: does one pattern match the lower-cased host? */
  predicate MatchesPattern(host: string, rawPattern: string, lower: string -> string)
  {
    var pattern := Strip(lower(rawPattern));
    if pattern == "" then false
    else if "*." <= pattern then
      var suffix := pattern[1..];
      EndsWith(host, suffix) || host == LStripDots(suffix)
    else host == pattern
  }

  /** Some pattern of the list matches. */
  predicate AnyMatches(host: string, patterns: seq<string>, lower: string -> string)
  {
    exists i :: 0 <= i < |patterns| && MatchesPattern(host, patterns[i], lower)
  }

  /** `_matches_allowlist`: a search that returns on the first match. */
  method MatchesAllowlist(hostname: string, patterns: seq<string>, lower: string -> string) returns (r: bool)
    ensures r <==> AnyMatches(lower(hostname), patterns, lower)
  {
    var host := lower(hostname);
    for i := 0 to |patterns|
      invariant forall j :: 0 <= j < i ==> !MatchesPattern(host, patterns[j], lower)
    {
      if MatchesPattern(host, patterns[i], lower) { return true; }
    }
    return false;
  }

  /** Adding patterns never removes a match, and the order of a list does not matter. */
  lemma VerdictDependsOnPatternSet(host: string, some: seq<string>, more: seq<string>, lower: string -> string)
    requires forall p :: p in some ==> p in more
    ensures AnyMatches(host, some, lower) ==> AnyMatches(host, more, lower)
    ensures multiset(some) == multiset(more) ==> (AnyMatches(host, some, lower) <==> AnyMatches(host, more, lower))
  {
    if AnyMatches(host, some, lower) {
      var i :| 0 <= i < |some| && MatchesPattern(host, some[i], lower);
      assert some[i] in more;
    }
    if multiset(some) == multiset(more) && AnyMatches(host, more, lower) {
      var i :| 0 <= i < |more| && MatchesPattern(host, more[i], lower);
      assert more[i] in multiset(more);
      assert more[i] in some;
    }
  }

  // ── what a wildcard means ──────────────────────────────────────────────────

  /** The labels of a domain name. */
  function Labels(name: string): seq<string> { Split(name, '.') }

  predicate IsSuffix(a: seq<string>, b: seq<string>) { |a| <= |b| && b[|b| - |a|..] == a }

  lemma DottedSuffixSplits(host: string, d: string)
    requires EndsWith(host, "." + d)
    ensures IsSuffix(Labels(d), Labels(host))
  {
    var front := host[..|host| - |d| - 1];
    assert host == front + ['.'] + d;
    SplitAround(front, d, '.');
  }

  lemma LabelSuffixJoins(host: string, d: string, front: seq<string>)
    requires Labels(host) == front + Labels(d)
    ensures if front == [] then host == d else host == Join(front, '.') + ['.'] + d
  {
    JoinSplit(host, '.');
    JoinSplit(d, '.');
    if front == [] {
      assert Labels(host) == Labels(d);
    } else {
      JoinConcat(front, Labels(d), '.');
    }
  }

  /** Ending in "." and a domain is having that domain's labels and at least one more in front. */
  lemma DottedSuffixIsLabelSuffix(host: string, d: string)
    ensures host == d || EndsWith(host, "." + d) <==> IsSuffix(Labels(d), Labels(host))
  {
    if EndsWith(host, "." + d) { DottedSuffixSplits(host, d); }
    if IsSuffix(Labels(d), Labels(host)) {
      var front := Labels(host)[..|Labels(host)| - |Labels(d)|];
      LabelSuffixJoins(host, d, front);
    }
  }

  lemma WildcardMatches(host: string, raw: string, d: string, lower: string -> string)
    requires Strip(lower(raw)) == "*." + d
    ensures MatchesPattern(host, raw, lower) <==> EndsWith(host, "." + d) || host == LStripDots(d)
  {
    assert ("*." + d)[1..] == "." + d;
    assert ("." + d)[1..] == d;
  }

  /** A pattern that does not start with "*." matches exactly one host, its stripped lower-case text;
      a blank one matches none. */
  lemma ExactPattern(host: string, raw: string, lower: string -> string)
    requires var p := Strip(lower(raw)); |p| < 2 || p[0] != '*' || p[1] != '.'
    ensures MatchesPattern(host, raw, lower) <==> host != "" && host == Strip(lower(raw))
  {
    var p := Strip(lower(raw));
    assert "*."[0] == '*' && "*."[1] == '.';
  }

  /** Leading dots are dropped and nothing else: what is left does not start with one. */
  lemma {:induction false} LStripDotsIs(s: string) returns (dots: string)
    ensures s == dots + LStripDots(s) && (forall i :: 0 <= i < |dots| ==> dots[i] == '.') && !StartsWithDot(LStripDots(s))
  {
    if StartsWithDot(s) {
      dots := LStripDotsIs(s[1..]);
      dots := ['.'] + dots;
    } else {
      dots := "";
    }
  }

  lemma LStripShorter(d: string)
    requires StartsWithDot(d)
    ensures |LStripDots(d)| < |d|
  {
    LStripNotLonger(d[1..]);
  }

  lemma {:induction false} LStripNotLonger(s: string)
    ensures |LStripDots(s)| <= |s|
  {
    if s != "" { LStripNotLonger(s[1..]); }
  }

  predicate StartsWithDot(d: string) { d != "" && d[0] == '.' }

  /** With a leading dot the domain itself has its own labels but is not matched. */
  lemma DottedDomainUnmatched(raw: string, d: string, lower: string -> string)
    requires Strip(lower(raw)) == "*." + d && StartsWithDot(d)
    ensures !MatchesPattern(d, raw, lower) && IsSuffix(Labels(d), Labels(d))
  {
    LStripShorter(d);
    WildcardMatches(d, raw, d, lower);
  }

  lemma PlainDomainMatches(host: string, raw: string, d: string, lower: string -> string)
    requires Strip(lower(raw)) == "*." + d && !StartsWithDot(d)
    ensures MatchesPattern(host, raw, lower) <==> IsSuffix(Labels(d), Labels(host))
  {
    WildcardMatches(host, raw, d, lower);
    DottedSuffixIsLabelSuffix(host, d);
  }

  /** The pattern `*.d` matches a host exactly when d's labels are a suffix of the host's, for every
      host, if and only if d does not start with a dot. */
  lemma WildcardIsLabelSuffix(raw: string, d: string, lower: string -> string)
    requires Strip(lower(raw)) == "*." + d
    ensures (forall host :: MatchesPattern(host, raw, lower) <==> IsSuffix(Labels(d), Labels(host))) <==> !StartsWithDot(d)
  {
    if StartsWithDot(d) {
      DottedDomainUnmatched(raw, d, lower);
    } else {
      forall host ensures MatchesPattern(host, raw, lower) <==> IsSuffix(Labels(d), Labels(host)) {
        PlainDomainMatches(host, raw, d, lower);
      }
    }
  }
}
