/** The two checks of `backend/services/_zip_safety.py` on an entry name.  The lexical check
    runs on the *cleaned* name (stripped, backslashes replaced); the target path is built from
    the *raw* one.  `isAlpha` stands for `str.isalpha` on one character. */
module ZipNames {
  import opened Text
  import opened PosixPath

  datatype Verdict = Safe | Refused(reason: Reason)
  datatype Reason = EmptyName | AbsolutePath | ParentReference | DriveLetter

  function SlashesForBackslashes(s: string): string
  {
    seq(|s|, i requires 0 <= i < |s| => if s[i] == '\\' then '/' else s[i])
  }

  predicate DriveLetterPrefix(c: string, isAlpha: char -> bool) { |c| >= 2 && c[1] == ':' && isAlpha(c[0]) }

  /** The loop over the components: the first offending one decides. */
  function ComponentsVerdict(comps: seq<string>, isAlpha: char -> bool): Verdict
  {
    if comps == [] then Safe
    else if comps[0] == ".." then Refused(ParentReference)
    else if DriveLetterPrefix(comps[0], isAlpha) then Refused(DriveLetter)
    else ComponentsVerdict(comps[1..], isAlpha)
  }

  /** `_path_components_are_safe`. */
  function NameVerdict(member: string, isAlpha: char -> bool): Verdict
  {
    var cleaned := Strip(member);
    if cleaned == "" then Refused(EmptyName)
    else
      var normalised := SlashesForBackslashes(cleaned);
      if IsAbsolute(normalised) then Refused(AbsolutePath)
      else ComponentsVerdict(Parts(normalised), isAlpha)
  }

  /** `_verify_inside_root`. */
  predicate InsideRoot(root: string, candidate: string)
  {
    CommonPath(root, candidate) == Some(root)
  }

  /** The path an entry is written to: `normpath(join(root, suffix))`. */
  function Target(root: string, suffix: string): string
  {
    NormPath(JoinPath(root, suffix))
  }

  // ── ".." as a component, by position ───────────────────────────────────────

  /** "..", delimited by slashes or the ends of the string, stands at index `i`. */
  predicate ParentAt(s: string, i: nat)
  {
    && i + 2 <= |s| && s[i] == '.' && s[i + 1] == '.'
    && (i == 0 || s[i - 1] == '/')
    && (i + 2 == |s| || s[i + 2] == '/')
  }

  lemma ParentAtIsPart(s: string, i: nat)
    ensures ParentAt(s, i) <==> PartAt(s, '/', i, "..")
  {
  }

  lemma ParentPosition(s: string) returns (i: nat)
    requires ".." in Split(s, '/')
    ensures ParentAt(s, i)
  {
    PartsByPosition(s, '/', "..");
    i :| PartAt(s, '/', i, "..");
    ParentAtIsPart(s, i);
  }

  lemma ParentComponent(s: string, i: nat)
    requires ParentAt(s, i)
    ensures ".." in Split(s, '/')
  {
    ParentAtIsPart(s, i);
    PartsByPosition(s, '/', "..");
  }

  /** Cleaning a name cannot hide a ".." component of the raw name: stripping stops at the
      component or its slashes, and replacing backslashes does not touch them. */
  lemma ParentSurvivesCleaning(raw: string)
    requires ".." in Split(raw, '/')
    ensures ".." in Parts(SlashesForBackslashes(Strip(raw)))
  {
    var i := ParentPosition(raw);
    var j := ParentSurvivesLStrip(raw, i);
    ParentSurvivesRStrip(LStrip(raw), j);
    var normalised := SlashesForBackslashes(Strip(raw));
    assert ParentAt(normalised, j);
    ParentComponent(normalised, j);
    KeptMember(Split(normalised, '/'), "..");
  }

  lemma ParentSurvivesLStrip(s: string, i: nat) returns (j: nat)
    requires ParentAt(s, i)
    ensures ParentAt(LStrip(s), j)
  {
    LStripShape(s);
    var lo := |s| - |LStrip(s)|;
    if i == 0 {
      assert LStrip(s) == s;
      j := 0;
    } else {
      assert !IsSpace(s[i - 1]);
      j := i - lo;
    }
  }

  lemma ParentSurvivesRStrip(s: string, j: nat)
    requires ParentAt(s, j)
    ensures ParentAt(RStrip(s), j)
  {
    RStripShape(s);
    assert !IsSpace(s[j + 1]);
    if j + 2 < |s| { assert !IsSpace(s[j + 2]); }
  }

  lemma {:induction false} SafeComponents(comps: seq<string>, isAlpha: char -> bool)
    requires ComponentsVerdict(comps, isAlpha) == Safe
    ensures ".." !in comps
  {
    if comps != [] { SafeComponents(comps[1..], isAlpha); }
  }

  lemma {:induction false} ComponentsSafeIff(comps: seq<string>, isAlpha: char -> bool)
    ensures ComponentsVerdict(comps, isAlpha) == Safe <==>
            forall i :: 0 <= i < |comps| ==> comps[i] != ".." && !DriveLetterPrefix(comps[i], isAlpha)
  {
    if comps != [] {
      ComponentsSafeIff(comps[1..], isAlpha);
      assert forall i :: 1 <= i < |comps| ==> comps[i] == comps[1..][i - 1];
    }
  }

  /** What the documentation promises: refused are exactly the blank names, the absolute paths in
      either form, the parent references and the drive-letter prefixes. */
  lemma SafeIff(member: string, isAlpha: char -> bool)
    ensures var normalised := SlashesForBackslashes(Strip(member));
            NameVerdict(member, isAlpha) == Safe <==>
              && normalised != "" && normalised[0] != '/'
              && forall i :: 0 <= i < |Parts(normalised)| ==>
                   Parts(normalised)[i] != ".." && !DriveLetterPrefix(Parts(normalised)[i], isAlpha)
  {
    ComponentsSafeIff(Parts(SlashesForBackslashes(Strip(member))), isAlpha);
  }

  // ── the verdict, by position in the stripped name ──────────────────────────

  /** Either form of separator. */
  predicate Separates(c: char) { c == '/' || c == '\\' }

  /** A component may start at index `i`. */
  predicate StartsAt(s: string, i: nat) { i <= |s| && (i == 0 || Separates(s[i - 1])) }

  predicate ParentBetween(s: string, i: nat)
  {
    StartsAt(s, i) && i + 2 <= |s| && s[i] == '.' && s[i + 1] == '.' && (i + 2 == |s| || Separates(s[i + 2]))
  }

  predicate DriveBetween(s: string, i: nat, isAlpha: char -> bool)
  {
    StartsAt(s, i) && i + 2 <= |s| && !Separates(s[i]) && isAlpha(s[i]) && s[i + 1] == ':'
  }

  /** Not blank, not absolute in either form, and without a parent reference or a drive letter between
      separators of either form. */
  ghost predicate SafeText(member: string, isAlpha: char -> bool)
  {
    var s := Strip(member);
    s != "" && !Separates(s[0]) && forall i: nat :: !ParentBetween(s, i) && !DriveBetween(s, i, isAlpha)
  }

  lemma NormalisedAt(s: string, i: nat)
    requires i < |s|
    ensures |SlashesForBackslashes(s)| == |s|
    ensures SlashesForBackslashes(s)[i] == '/' <==> Separates(s[i])
    ensures !Separates(s[i]) ==> SlashesForBackslashes(s)[i] == s[i]
  {
  }

  lemma ParentBetweenIs(s: string, i: nat)
    ensures ParentBetween(s, i) <==> ParentAt(SlashesForBackslashes(s), i)
  {
    if i + 2 <= |s| {
      NormalisedAt(s, i);
      NormalisedAt(s, i + 1);
      if i > 0 { NormalisedAt(s, i - 1); }
      if i + 2 < |s| { NormalisedAt(s, i + 2); }
    }
  }

  lemma ParentByPosition(s: string)
    ensures ".." in Parts(SlashesForBackslashes(s)) <==> exists i: nat :: ParentBetween(s, i)
  {
    var n := SlashesForBackslashes(s);
    PartsMember(n, "..");
    if ".." in Split(n, '/') {
      var i := ParentPosition(n);
      ParentBetweenIs(s, i);
    }
    if i: nat :| ParentBetween(s, i) {
      ParentBetweenIs(s, i);
      ParentComponent(n, i);
    }
  }

  lemma {:induction false} KeptFrom(comps: seq<string>, c: string)
    ensures c in Kept(comps) ==> c in comps && c != "" && c != "."
  {
    if comps != [] { KeptFrom(comps[1..], c); }
  }

  lemma PartsMember(path: string, c: string)
    requires c != "" && c != "."
    ensures c in Parts(path) <==> c in Split(path, '/')
  {
    KeptFrom(Split(path, '/'), c);
    if c in Split(path, '/') { KeptMember(Split(path, '/'), c); }
  }

  /** The component that starts at index `i`. */
  function ComponentFrom(n: string, i: nat): (c: string)
    requires i <= |n|
    ensures i + |c| <= |n| && n[i..i + |c|] == c && '/' !in c && (i + |c| == |n| || n[i + |c|] == '/')
    decreases |n| - i
  {
    if i == |n| || n[i] == '/' then ""
    else
      var rest := ComponentFrom(n, i + 1);
      assert n[i..i + 1 + |rest|] == [n[i]] + n[i + 1..i + 1 + |rest|];
      [n[i]] + rest
  }

  lemma DriveByPosition(s: string, isAlpha: char -> bool)
    ensures (exists c :: c in Parts(SlashesForBackslashes(s)) && DriveLetterPrefix(c, isAlpha)) <==>
            exists i: nat :: DriveBetween(s, i, isAlpha)
  {
    var n := SlashesForBackslashes(s);
    if c :| c in Parts(n) && DriveLetterPrefix(c, isAlpha) {
      DriveHasPosition(s, c, isAlpha);
    }
    if i: nat :| DriveBetween(s, i, isAlpha) {
      PositionHasDrive(s, i, isAlpha);
    }
  }

  lemma DriveHasPosition(s: string, c: string, isAlpha: char -> bool)
    requires c in Parts(SlashesForBackslashes(s)) && DriveLetterPrefix(c, isAlpha)
    ensures exists i: nat :: DriveBetween(s, i, isAlpha)
  {
    var n := SlashesForBackslashes(s);
    PartsMember(n, c);
    PartsByPosition(n, '/', c);
    var i: nat :| PartAt(n, '/', i, c);
    assert n[i] == c[0] && n[i + 1] == c[1];
    NormalisedAt(s, i);
    NormalisedAt(s, i + 1);
    if i > 0 { NormalisedAt(s, i - 1); }
    assert DriveBetween(s, i, isAlpha);
  }

  lemma PositionHasDrive(s: string, i: nat, isAlpha: char -> bool)
    requires DriveBetween(s, i, isAlpha)
    ensures exists c :: c in Parts(SlashesForBackslashes(s)) && DriveLetterPrefix(c, isAlpha)
  {
    var n := SlashesForBackslashes(s);
    NormalisedAt(s, i);
    NormalisedAt(s, i + 1);
    if i > 0 { NormalisedAt(s, i - 1); }
    var c := ComponentFrom(n, i);
    assert n[i] != '/' && n[i + 1] != '/';
    assert c[0] == n[i] && c[1] == n[i + 1];
    PartsByPosition(n, '/', c);
    assert PartAt(n, '/', i, c);
    PartsMember(n, c);
  }

  /** The verdict in terms of the characters of the stripped name: a name is accepted exactly when
      it is safe text, and a separator in front is refused as an absolute path. */
  lemma VerdictByPosition(member: string, isAlpha: char -> bool)
    ensures NameVerdict(member, isAlpha) == Safe <==> SafeText(member, isAlpha)
    ensures NameVerdict(member, isAlpha) == Refused(EmptyName) <==> Strip(member) == ""
    ensures NameVerdict(member, isAlpha) == Refused(AbsolutePath) <==> Strip(member) != "" && Separates(Strip(member)[0])
  {
    var s := Strip(member);
    var n := SlashesForBackslashes(s);
    ParentByPosition(s);
    DriveByPosition(s, isAlpha);
    ComponentsReason(Parts(n), isAlpha);
    if s != "" { NormalisedAt(s, 0); }
    ComponentsSafeIff(Parts(n), isAlpha);
    assert (forall i :: 0 <= i < |Parts(n)| ==> Parts(n)[i] != ".." && !DriveLetterPrefix(Parts(n)[i], isAlpha)) <==>
           ".." !in Parts(n) && forall c :: c in Parts(n) ==> !DriveLetterPrefix(c, isAlpha);
  }

  /** The first offending component gives the reason. */
  lemma {:induction false} ComponentsReason(comps: seq<string>, isAlpha: char -> bool)
    ensures ComponentsVerdict(comps, isAlpha) != Safe ==>
      exists k :: 0 <= k < |comps| && (forall j :: 0 <= j < k ==> comps[j] != ".." && !DriveLetterPrefix(comps[j], isAlpha))
               && ComponentsVerdict(comps, isAlpha) == (if comps[k] == ".." then Refused(ParentReference) else Refused(DriveLetter))
               && (comps[k] == ".." || DriveLetterPrefix(comps[k], isAlpha))
  {
    if comps != [] && comps[0] != ".." && !DriveLetterPrefix(comps[0], isAlpha) {
      ComponentsReason(comps[1..], isAlpha);
      if ComponentsVerdict(comps[1..], isAlpha) != Safe {
        var k :| 0 <= k < |comps| - 1 && (forall j :: 0 <= j < k ==> comps[1..][j] != ".." && !DriveLetterPrefix(comps[1..][j], isAlpha))
               && ComponentsVerdict(comps[1..], isAlpha) == (if comps[1..][k] == ".." then Refused(ParentReference) else Refused(DriveLetter))
               && (comps[1..][k] == ".." || DriveLetterPrefix(comps[1..][k], isAlpha));
        assert forall j :: 0 < j <= k ==> comps[j] == comps[1..][j - 1];
        assert comps[k + 1] == comps[1..][k];
      }
    }
  }

  /** What acceptance of the cleaned name says about the raw one. */
  lemma SafeRawName(raw: string, isAlpha: char -> bool)
    requires NameVerdict(raw, isAlpha) == Safe
    ensures raw != "" && !IsAbsolute(raw) && ".." !in Split(raw, '/')
  {
    var cleaned := Strip(raw);
    SafeComponents(Parts(SlashesForBackslashes(cleaned)), isAlpha);
    if ".." in Split(raw, '/') { ParentSurvivesCleaning(raw); }
    AbsoluteSurvivesCleaning(raw);
  }

  lemma AbsoluteSurvivesCleaning(raw: string)
    ensures IsAbsolute(raw) ==> IsAbsolute(SlashesForBackslashes(Strip(raw)))
    ensures raw == "" ==> Strip(raw) == ""
  {
    if IsAbsolute(raw) {
      assert LStrip(raw) == raw;
      RStripShape(raw);
    }
  }

  /** The main containment result.  Whenever the lexical check accepts a suffix, the target built
      from the raw suffix has exactly the root's components followed by the suffix's own, all of
      them plain names; and the independent `commonpath` check agrees with the lexical one exactly
      when the root does not start with two slashes (it then refuses every entry). */
  lemma AcceptedTargetIsBelowRoot(root: string, suffix: string, isAlpha: char -> bool)
    requires NormalRoot(root) && NameVerdict(suffix, isAlpha) == Safe
    ensures var target := Target(root, suffix);
            && Parts(target) == Parts(root) + Parts(suffix) && AllPlain(Parts(target))
            && NormalRoot(target)
            && (InsideRoot(root, target) <==> InitialSlashes(root) == 1)
  {
    SafeRawName(suffix, isAlpha);
    JoinNormalised(root, suffix);
    CommonPathBelow(root, Target(root, suffix), Parts(suffix));
    AssembledIsNormal(InitialSlashes(root), Parts(root) + Parts(suffix));
  }

  /** One or two slashes followed by joined plain components is a fixed point of `normpath`. */
  lemma AssembledIsNormal(k: nat, comps: seq<string>)
    requires 1 <= k <= 2 && AllPlain(comps)
    ensures NormalRoot(Leading(k) + Join(comps, '/'))
  {
    var path := Leading(k) + Join(comps, '/');
    LeadingCases();
    PartsOfAssembled(k, comps);
    if comps != [] { JoinPlainStart(comps); }
    assert InitialSlashes(path) == k;
    if ".." in Split(path, '/') { KeptMember(Split(path, '/'), ".."); }
    NormCompsKept(Split(path, '/'), true, []);
    assert NormComps(Split(path, '/'), true, []) == comps;
  }

  /** The second check by itself: under an ordinary root it accepts exactly the absolute paths whose
      components start with the root's. */
  lemma InsideRootIff(root: string, candidate: string)
    requires NormalRoot(root) && InitialSlashes(root) == 1
    ensures InsideRoot(root, candidate) <==> IsAbsolute(candidate) && Parts(root) <= Parts(candidate)
  {
    NormalRootShape(root);
    LeadingCases();
    var a, b := Parts(root), Parts(candidate);
    CommonPrefixIsPrefix(a, b);
    PartsOfAssembled(1, a);
    PartsOfAssembled(1, CommonPrefix(a, b));
  }

  lemma {:induction false} CommonPrefixIsPrefix(a: seq<string>, b: seq<string>)
    ensures CommonPrefix(a, b) <= a && CommonPrefix(a, b) <= b
    ensures CommonPrefix(a, b) == a <==> a <= b
  {
    if a != [] && b != [] && a[0] == b[0] {
      CommonPrefixIsPrefix(a[1..], b[1..]);
      assert a == [a[0]] + a[1..] && b == [b[0]] + b[1..];
    }
  }

  /** The two checks disagree under a root with two leading slashes; a resolved path has only one. */
  lemma ChecksDisagreeUnderDoubleSlash()
    ensures NormalRoot("//srv") && NameVerdict("a", _ => true) == Safe && !InsideRoot("//srv", Target("//srv", "a"))
  {
    assert Plain("srv") && AllPlain(["srv"]);
    AssembledIsNormal(2, ["srv"]);
    assert Leading(2) + Join(["srv"], '/') == "//srv";
    SplitOfFree("a", '/');
    assert SlashesForBackslashes("a") == "a";
    assert Kept(["a"]) == ["a"] + Kept(["a"][1..]) == ["a"];
    assert ComponentsVerdict(["a"], _ => true) == ComponentsVerdict([], _ => true);
    StripTrimmed("a");
    AcceptedTargetIsBelowRoot("//srv", "a", _ => true);
  }
}
