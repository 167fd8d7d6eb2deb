/** The parts of `pathlib.PurePosixPath` and `posixpath` that the ZIP extraction relies on,
    over strings: `parts`, `join`, `normpath` and `commonpath`. */
module PosixPath {
  import opened Text

  /** Drops the empty and "." components, as `PurePosixPath` and `commonpath` do. */
  function Kept(comps: seq<string>): seq<string>
  {
    if comps == [] then []
    else if comps[0] == "" || comps[0] == "." then Kept(comps[1..])
    else [comps[0]] + Kept(comps[1..])
  }

  /** The components of a path (`PurePosixPath(path).parts` without a leading root). */
  function Parts(path: string): seq<string> { Kept(Split(path, '/')) }

  predicate IsAbsolute(path: string) { path != "" && path[0] == '/' }

  /** `os.path.join(a, b)`. */
  function JoinPath(a: string, b: string): string
  {
    if IsAbsolute(b) then b
    else if a == "" || a[|a| - 1] == '/' then a + b
    else a + "/" + b
  }

  /** How many slashes `normpath` keeps in front: POSIX gives exactly two a meaning of their own. */
  function InitialSlashes(path: string): nat
  {
    if !IsAbsolute(path) then 0
    else if |path| >= 2 && path[1] == '/' && !(|path| >= 3 && path[2] == '/') then 2
    else 1
  }

  /** One turn of `normpath`'s loop over the components. */
  function NormPush(acc: seq<string>, c: string, rooted: bool): seq<string>
  {
    if c == "" || c == "." then acc
    else if c != ".." || (!rooted && acc == []) || (acc != [] && acc[|acc| - 1] == "..") then acc + [c]
    else if acc != [] then acc[..|acc| - 1]
    else acc
  }

  function NormComps(comps: seq<string>, rooted: bool, acc: seq<string>): seq<string>
    decreases |comps|
  {
    if comps == [] then acc else NormComps(comps[1..], rooted, NormPush(acc, comps[0], rooted))
  }

  /** `os.path.normpath(path)`. */
  function NormPath(path: string): string
  {
    var k := InitialSlashes(path);
    var body := Leading(k) + Join(NormComps(Split(path, '/'), k > 0, []), '/');
    if body == "" then "." else body
  }

  function Leading(k: nat): string { seq(k, _ => '/') }

  function CommonPrefix(a: seq<string>, b: seq<string>): seq<string>
  {
    if a == [] || b == [] || a[0] != b[0] then [] else [a[0]] + CommonPrefix(a[1..], b[1..])
  }

  /** `os.path.commonpath([a, b])`; `None` where it raises `ValueError`.  (With two paths, the
      smallest and the largest component list are the two lists themselves.) */
  function CommonPath(a: string, b: string): Option<string>
  {
    if IsAbsolute(a) != IsAbsolute(b) then None
    else Some(Leading(if IsAbsolute(a) then 1 else 0) + Join(CommonPrefix(Parts(a), Parts(b)), '/'))
  }

  /** An absolute path that `normpath` leaves alone, such as `str(Path.resolve())`. */
  predicate NormalRoot(root: string) { IsAbsolute(root) && NormPath(root) == root }

  /** A component that names an entry of a directory: not empty, not ".", not "..", no slash. */
  predicate Plain(c: string) { c != "" && c != "." && c != ".." && '/' !in c }

  predicate AllPlain(comps: seq<string>) { forall i :: 0 <= i < |comps| ==> Plain(comps[i]) }

  // ── Kept and NormComps ─────────────────────────────────────────────────────

  lemma {:induction false} KeptConcat(a: seq<string>, b: seq<string>)
    ensures Kept(a + b) == Kept(a) + Kept(b)
  {
    if a == [] {
      assert a + b == b;
    } else {
      assert (a + b)[1..] == a[1..] + b;
      KeptConcat(a[1..], b);
    }
  }

  lemma {:induction false} KeptPlain(comps: seq<string>)
    requires AllPlain(comps)
    ensures Kept(comps) == comps
  {
    if comps != [] { KeptPlain(comps[1..]); }
  }

  lemma {:induction false} KeptIsPlain(comps: seq<string>)
    requires NoneContains(comps, '/') && ".." !in comps
    ensures AllPlain(Kept(comps))
  {
    if comps != [] { KeptIsPlain(comps[1..]); }
  }

  lemma {:induction false} KeptMember(comps: seq<string>, c: string)
    requires c in comps && c != "" && c != "."
    ensures c in Kept(comps)
  {
    if comps[0] != c { KeptMember(comps[1..], c); }
  }

  /** Without "..", normalisation only drops the empty and "." components. */
  lemma {:induction false} NormCompsKept(comps: seq<string>, rooted: bool, acc: seq<string>)
    requires ".." !in comps
    ensures NormComps(comps, rooted, acc) == acc + Kept(comps)
    decreases |comps|
  {
    if comps != [] {
      NormCompsKept(comps[1..], rooted, NormPush(acc, comps[0], rooted));
    }
  }

  /** A ".." takes back the component before it; under a root it has no effect where there is none,
      and a relative path keeps it. */
  lemma ParentTakesBack(comps: seq<string>, rooted: bool, acc: seq<string>, c: string)
    requires Plain(c)
    ensures NormComps([c, ".."] + comps, rooted, acc) == NormComps(comps, rooted, acc)
    ensures NormComps([".."] + comps, true, []) == NormComps(comps, true, [])
    ensures (acc == [] || acc[|acc| - 1] == "..") ==> NormComps([".."] + comps, false, acc) == NormComps(comps, false, acc + [".."])
  {
    var two, one := [c, ".."] + comps, [".."] + comps;
    assert two[1..] == one && one[1..] == comps;
    assert (acc + [c])[..|acc|] == acc;
    assert NormPush(acc, c, rooted) == acc + [c] && NormPush(acc + [c], "..", rooted) == acc;
  }

  /** An absolute second path replaces the first, and paths of both kinds have nothing in common. */
  lemma AbsoluteWins(a: string, b: string)
    ensures IsAbsolute(b) ==> JoinPath(a, b) == b
    ensures IsAbsolute(a) != IsAbsolute(b) ==> CommonPath(a, b) == None
  {
  }

  /** Under a root, normalisation leaves only plain components. */
  lemma {:induction false} NormCompsPlain(comps: seq<string>, acc: seq<string>)
    requires NoneContains(comps, '/') && AllPlain(acc)
    ensures AllPlain(NormComps(comps, true, acc))
    decreases |comps|
  {
    if comps != [] {
      NormCompsPlain(comps[1..], NormPush(acc, comps[0], true));
    }
  }

  // ── normalised absolute paths ──────────────────────────────────────────────

  lemma LeadingCases()
    ensures Leading(0) == "" && Leading(1) == "/" && Leading(2) == "//"
  {
  }

  /** The components of one or two slashes followed by joined plain components. */
  lemma PartsOfAssembled(k: nat, comps: seq<string>)
    requires 1 <= k <= 2 && AllPlain(comps)
    ensures Parts(Leading(k) + Join(comps, '/')) == comps
  {
    var body := Join(comps, '/');
    var bodyParts := Split(body, '/');
    assert Kept(bodyParts) == comps by {
      if comps == [] { assert Kept([""]) == Kept([""][1..]) == []; }
      else { SplitJoin(comps, '/'); KeptPlain(comps); }
    }
    SplitAround("", body, '/');
    assert "" + ['/'] + body == "/" + body;
    assert Leading(1) == "/";
    KeptConcat([""], bodyParts);
    assert Kept([""]) == Kept([""][1..]) == [];
    if k == 2 {
      SplitAround("", "/" + body, '/');
      assert Leading(2) + body == "" + ['/'] + ("/" + body);
      KeptConcat([""], Split("/" + body, '/'));
    }
  }

  /** A normalised absolute path is one or two slashes and its plain components. */
  lemma NormalRootShape(root: string)
    requires NormalRoot(root)
    ensures AllPlain(Parts(root))
    ensures 1 <= InitialSlashes(root) <= 2
    ensures root == Leading(InitialSlashes(root)) + Join(Parts(root), '/')
  {
    var k := InitialSlashes(root);
    var comps := NormComps(Split(root, '/'), true, []);
    SplitPartsFree(root, '/');
    NormCompsPlain(Split(root, '/'), []);
    PartsOfAssembled(k, comps);
  }

  lemma {:induction false} CommonPrefixOfExtension(a: seq<string>, b: seq<string>)
    ensures CommonPrefix(a, a + b) == a
  {
    if a != [] {
      assert (a + b)[1..] == a[1..] + b;
      CommonPrefixOfExtension(a[1..], b);
    }
  }

  lemma {:induction false} JoinPlainStart(comps: seq<string>)
    requires comps != [] && AllPlain(comps)
    ensures Join(comps, '/') != "" && Join(comps, '/')[0] != '/'
    ensures Join(comps, '/')[|Join(comps, '/')| - 1] != '/'
  {
    if |comps| > 1 { JoinPlainStart(comps[1..]); }
  }

  /** The raw components of root and suffix, and the leading slashes, of the joined path. */
  lemma JoinedParts(root: string, suffix: string)
    requires NormalRoot(root) && suffix != "" && !IsAbsolute(suffix)
    ensures InitialSlashes(JoinPath(root, suffix)) == InitialSlashes(root)
    ensures exists front :: Split(JoinPath(root, suffix), '/') == front + Split(suffix, '/')
                         && ".." !in front && Kept(front) == Parts(root)
  {
    NormalRootShape(root);
    LeadingCases();
    var rc := Parts(root);
    var base := if root[|root| - 1] == '/' then root[..|root| - 1] else root;
    assert JoinPath(root, suffix) == base + ['/'] + suffix;
    SplitAround(base, suffix, '/');
    var front := Split(base, '/');
    if rc == [] {
      assert base == Leading(InitialSlashes(root) - 1);
      assert Split("", '/') == [""];
      assert "/"[1..] == "";
      assert Split("/", '/') == Prepend('/', Split("", '/'), '/') == ["", ""];
      KeptConcat([""], [""]);
      assert Kept([""]) == Kept([""][1..]) == [];
    } else {
      JoinPlainStart(rc);
      assert base == root;
      SplitPlainRoot(root);
    }
    assert ".." !in front && Kept(front) == rc;
  }

  lemma SplitPlainRoot(root: string)
    requires NormalRoot(root)
    ensures ".." !in Split(root, '/')
  {
    NormalRootShape(root);
    if ".." in Split(root, '/') { KeptMember(Split(root, '/'), ".."); }
  }

  /** Joining a relative suffix without ".." onto a normalised root and normalising again only
      appends the suffix's components to the root's. */
  lemma JoinNormalised(root: string, suffix: string)
    requires NormalRoot(root) && suffix != "" && !IsAbsolute(suffix) && ".." !in Split(suffix, '/')
    ensures var target := NormPath(JoinPath(root, suffix));
            && target == Leading(InitialSlashes(root)) + Join(Parts(root) + Parts(suffix), '/')
            && Parts(target) == Parts(root) + Parts(suffix)
            && AllPlain(Parts(target)) && IsAbsolute(target)
  {
    NormalRootShape(root);
    JoinedParts(root, suffix);
    var joined := JoinPath(root, suffix);
    var front :| Split(joined, '/') == front + Split(suffix, '/') && ".." !in front && Kept(front) == Parts(root);
    NormCompsKept(Split(joined, '/'), true, []);
    KeptConcat(front, Split(suffix, '/'));
    SplitPartsFree(suffix, '/');
    KeptIsPlain(Split(suffix, '/'));
    assert NormComps(Split(joined, '/'), true, []) == Parts(root) + Parts(suffix);
    assert |Leading(InitialSlashes(root))| >= 1;
    PartsOfAssembled(InitialSlashes(root), Parts(root) + Parts(suffix));
  }

  /** `commonpath` of a root and a path below it is the root, except under two leading slashes. */
  lemma CommonPathBelow(root: string, target: string, below: seq<string>)
    requires NormalRoot(root) && IsAbsolute(target) && Parts(target) == Parts(root) + below
    ensures (CommonPath(root, target) == Some(root)) == (InitialSlashes(root) == 1)
  {
    NormalRootShape(root);
    LeadingCases();
    CommonPrefixOfExtension(Parts(root), below);
    var rest := Join(Parts(root), '/');
    assert |Leading(InitialSlashes(root)) + rest| == InitialSlashes(root) + |rest|;
  }
}
