/**
 * Path strings as component lists: splitting, joining, normalising, and the containment test
 * that works on the normalised strings.
 */
module Paths {
  /** The first slash, or the length. */
  function Slash(s: string): (i: nat)
    ensures i <= |s| && (i < |s| ==> s[i] == '/')
    ensures forall k :: 0 <= k < i ==> s[k] != '/'
  {
    if |s| == 0 || s[0] == '/' then 0 else 1 + Slash(s[1..])
  }

  /** Empty and "." components are dropped. */
  function Keep(part: string): seq<string> {
    if |part| == 0 || part == "." then [] else [part]
  }

  function Split(path: string): seq<string>
    decreases |path|
  {
    var i := Slash(path);
    if i == |path| then Keep(path) else Keep(path[..i]) + Split(path[i + 1..])
  }

  function Slashed(parts: seq<string>): string {
    if |parts| == 0 then "" else "/" + parts[0] + Slashed(parts[1..])
  }

  function Join(parts: seq<string>): string {
    if |parts| == 0 then "/" else Slashed(parts)
  }

  /** ".." removes the component before it, if any. */
  function Resolve(parts: seq<string>, acc: seq<string>): seq<string> {
    if |parts| == 0 then acc
    else if parts[0] == ".." then Resolve(parts[1..], if |acc| > 0 then acc[..|acc| - 1] else acc)
    else if parts[0] == "." then Resolve(parts[1..], acc)
    else Resolve(parts[1..], acc + [parts[0]])
  }

  /** The normalised component list of a path. */
  function Components(path: string): seq<string> {
    Resolve(Split(path), [])
  }

  function Normalize(path: string): string {
    Join(Components(path))
  }

  /** pathContains, on the strings. */
  predicate Contains(parent: string, child: string) {
    var p, c := Normalize(parent), Normalize(child);
    |p| < |c| && c[..|p|] == p && (c[|p|] == '/' || p == "/")
  }

  /* ---------- Splitting and joining ---------- */

  predicate ValidPart(part: string) {
    |part| > 0 && part != "." && '/' !in part
  }

  predicate CleanPart(part: string) {
    ValidPart(part) && part != ".."
  }

  predicate AllValid(parts: seq<string>) {
    forall i :: 0 <= i < |parts| ==> ValidPart(parts[i])
  }

  predicate AllClean(parts: seq<string>) {
    forall i :: 0 <= i < |parts| ==> CleanPart(parts[i])
  }

  lemma {:induction false} SplitValid(path: string)
    ensures AllValid(Split(path))
    decreases |path|
  {
    var i := Slash(path);
    if i < |path| {
      SplitValid(path[i + 1..]);
    }
  }

  lemma {:induction false} SlashAppend(a: string, b: string)
    ensures Slash(a + "/" + b) == Slash(a)
    decreases |a|
  {
    if |a| > 0 {
      assert (a + "/" + b)[1..] == a[1..] + "/" + b;
      SlashAppend(a[1..], b);
    }
  }

  /** A slash separates components. */
  lemma {:induction false} SplitAppend(a: string, b: string)
    ensures Split(a + "/" + b) == Split(a) + Split(b)
    decreases |a|
  {
    hide Keep, Slash;
    var s, i := a + "/" + b, Slash(a);
    SlashAppend(a, b);
    assert Split(s) == Keep(s[..i]) + Split(s[i + 1..]);
    if i == |a| {
      assert s[..i] == a && s[i + 1..] == b;
    } else {
      var rest := a[i + 1..];
      assert s[..i] == a[..i] && s[i + 1..] == rest + "/" + b;
      SplitAppend(rest, b);
      assert Keep(a[..i]) + (Split(rest) + Split(b)) == (Keep(a[..i]) + Split(rest)) + Split(b);
    }
  }

  lemma SplitPart(part: string)
    requires ValidPart(part)
    ensures Split(part) == [part]
  {
    forall k | 0 <= k < |part| ensures part[k] != '/' { assert part[k] in part; }
  }

  lemma SplitLeadingSlash(s: string)
    ensures Split("/" + s) == Split(s)
  {
    SplitAppend("", s);
    assert "" + "/" + s == "/" + s;
  }

  lemma SplitFirst(part: string, rest: seq<string>)
    requires ValidPart(part)
    ensures Split(part + Slashed(rest)) == [part] + Split(Slashed(rest))
  {
    SplitPart(part);
    if |rest| == 0 {
      assert part + "" == part && [part] + [] == [part];
      assert Split("") == [];
    } else {
      var tail := rest[0] + Slashed(rest[1..]);
      assert Slashed(rest) == "/" + tail;
      assert part + Slashed(rest) == part + "/" + tail;
      SplitLeadingSlash(tail);
      SplitAppend(part, tail);
    }
  }

  /** Splitting undoes joining on valid components. */
  lemma {:induction false} SplitSlashed(parts: seq<string>)
    requires AllValid(parts)
    ensures Split(Slashed(parts)) == parts
    decreases |parts|
  {
    hide Split, ValidPart;
    if |parts| > 0 {
      var rest := parts[1..];
      SplitSlashed(rest);
      SplitFirst(parts[0], rest);
      SplitLeadingSlash(parts[0] + Slashed(rest));
      assert Slashed(parts) == "/" + (parts[0] + Slashed(rest));
    } else {
      SplitEmpty();
    }
  }

  lemma SplitEmpty()
    ensures Split("") == []
  {
  }

  lemma SplitJoin(parts: seq<string>)
    requires AllValid(parts)
    ensures Split(Join(parts)) == parts
  {
    SplitSlashed(parts);
    if |parts| == 0 {
      assert "/" == "" + "/" + "";
      SplitAppend("", "");
    }
  }

  /* ---------- Normalisation ---------- */

  lemma {:induction false} ResolveClean(parts: seq<string>, acc: seq<string>)
    requires AllValid(parts) && AllClean(acc)
    ensures AllClean(Resolve(parts, acc))
    decreases |parts|
  {
    if |parts| > 0 {
      var acc' := if parts[0] == ".." then (if |acc| > 0 then acc[..|acc| - 1] else acc)
                  else if parts[0] == "." then acc else acc + [parts[0]];
      ResolveClean(parts[1..], acc');
    }
  }

  lemma {:induction false} ResolveIdentity(parts: seq<string>, acc: seq<string>)
    requires AllClean(parts)
    ensures Resolve(parts, acc) == acc + parts
    decreases |parts|
  {
    if |parts| > 0 {
      assert CleanPart(parts[0]);
      ResolveIdentity(parts[1..], acc + [parts[0]]);
      assert acc + [parts[0]] + parts[1..] == acc + parts;
    } else {
      assert acc + parts == acc;
    }
  }

  lemma ComponentsClean(path: string)
    ensures AllClean(Components(path)) && AllValid(Components(path))
  {
    SplitValid(path);
    ResolveClean(Split(path), []);
  }

  /** The components of a joined clean list are that list. */
  lemma ComponentsOfJoin(parts: seq<string>)
    requires AllClean(parts)
    ensures Components(Join(parts)) == parts
  {
    SplitJoin(parts);
    ResolveIdentity(parts, []);
    assert [] + parts == parts;
  }

  lemma NormalizeIdempotent(path: string)
    ensures Normalize(Normalize(path)) == Normalize(path)
  {
    ComponentsClean(path);
    ComponentsOfJoin(Components(path));
  }

  lemma {:induction false} ResolveAppend(a: seq<string>, b: seq<string>, acc: seq<string>)
    ensures Resolve(a + b, acc) == Resolve(b, Resolve(a, acc))
    decreases |a|
  {
    if |a| == 0 {
      assert a + b == b;
    } else {
      assert (a + b)[1..] == a[1..] + b;
      ResolveAppend(a[1..], b, if a[0] == ".." then (if |acc| > 0 then acc[..|acc| - 1] else acc)
                               else if a[0] == "." then acc else acc + [a[0]]);
    }
  }

  /** A ".." removes the component before it, and does nothing at the root. */
  lemma ParentExact(a: string)
    ensures var c := Components(a);
            Components(a + "/" + "..") == if |c| == 0 then [] else c[..|c| - 1]
  {
    SplitAppend(a, "..");
    DotDot();
    hide Split;
    ResolveAppend(Split(a), [".."], []);
    assert Resolve([".."], Components(a)) == Resolve([], if |Components(a)| > 0 then Components(a)[..|Components(a)| - 1] else []);
  }

  lemma DotDot()
    ensures Split("..") == [".."]
  {
    SplitPart("..");
  }

  /** Going into a component and back changes nothing. */
  lemma ThereAndBack(a: string, x: string)
    requires CleanPart(x)
    ensures Components(a + "/" + x) == Components(a) + [x]
    ensures Components(a + "/" + x + "/" + "..") == Components(a)
  {
    SplitAppend(a, x);
    SplitPart(x);
    ResolveAppend(Split(a), [x], []);
    assert Resolve([x], Components(a)) == Resolve([], Components(a) + [x]);
    ParentExact(a + "/" + x);
  }

  /** A normal path is "/" alone or starts with "/", names its components in order, and has no
      other form. */
  lemma NormalForm(path: string)
    ensures var c := Components(path);
            && (|c| == 0 ==> Normalize(path) == "/")
            && (|c| > 0 ==> Normalize(path) == "/" + c[0] + Slashed(c[1..]))
  {
  }

  /* ---------- Containment ---------- */

  lemma {:induction false} SlashedAppend(a: seq<string>, b: seq<string>)
    ensures Slashed(a + b) == Slashed(a) + Slashed(b)
    decreases |a|
  {
    if |a| == 0 {
      assert a + b == b;
    } else {
      assert (a + b)[1..] == a[1..] + b;
      SlashedAppend(a[1..], b);
    }
  }

  lemma JoinContains(p: seq<string>, c: seq<string>)
    requires AllClean(p) && AllClean(c) && p < c
    ensures var (sp, sc) := (Join(p), Join(c));
            |sp| < |sc| && sc[..|sp|] == sp && (sc[|sp|] == '/' || sp == "/")
  {
    var q := c[|p|..];
    assert c == p + q;
    SlashedAppend(p, q);
    if |p| == 0 {
      assert CleanPart(q[0]);
    }
  }

  lemma JoinLong(p: seq<string>)
    requires AllClean(p) && |p| > 0
    ensures Join(p) != "/"
  {
    assert CleanPart(p[0]);
  }

  lemma PrefixOf(p: seq<string>, q: seq<string>, c: seq<string>)
    requires c == p + q && c != p
    ensures p < c
  {
    assert q == [] ==> p + q == p;
  }

  lemma ContainsJoin(p: seq<string>, c: seq<string>)
    requires AllClean(p) && AllClean(c)
    requires var (sp, sc) := (Join(p), Join(c));
             |sp| < |sc| && sc[..|sp|] == sp && (sc[|sp|] == '/' || sp == "/")
    ensures p < c
  {
    CleanIsValid(p);
    CleanIsValid(c);
    hide Join, Split, AllClean, AllValid;
    var sp, sc := Join(p), Join(c);
    assert c != p;
    if |p| > 0 {
      JoinLong(p);
      var rest := sc[|sp| + 1..];
      assert sc == sp + "/" + rest;
      SplitJoin(p);
      SplitJoin(c);
      SplitAppend(sp, rest);
      PrefixOf(p, Split(rest), c);
    } else {
      NonEmpty(c);
    }
  }

  lemma CleanIsValid(p: seq<string>)
    requires AllClean(p)
    ensures AllValid(p)
  {
  }

  lemma NonEmpty(c: seq<string>)
    requires c != []
    ensures [] < c
  {
  }

  /** On strings, containment holds exactly when the parent's components are a strict prefix of
      the child's. */
  lemma ContainsIsStrictPrefix(parent: string, child: string)
    ensures Contains(parent, child) <==> Components(parent) < Components(child)
  {
    var p, c := Components(parent), Components(child);
    ComponentsClean(parent);
    ComponentsClean(child);
    if p < c { JoinContains(p, c); }
    if Contains(parent, child) { ContainsJoin(p, c); }
  }

  /** Hence it is a strict partial order. */
  lemma ContainsIsStrictOrder(a: string, b: string, c: string)
    ensures !Contains(a, a)
    ensures Contains(a, b) && Contains(b, c) ==> Contains(a, c)
    ensures Contains(a, b) ==> !Contains(b, a)
  {
    hide Components;
    ContainsIsStrictPrefix(a, a);
    ContainsIsStrictPrefix(a, b);
    ContainsIsStrictPrefix(b, c);
    ContainsIsStrictPrefix(a, c);
    ContainsIsStrictPrefix(b, a);
  }

  /* ---------- The loops ---------- */

  lemma SlashIs(s: string, i: nat)
    requires i <= |s| && (i < |s| ==> s[i] == '/')
    requires forall k :: 0 <= k < i ==> s[k] != '/'
    ensures Slash(s) == i
  {
    var j := Slash(s);
  }

  /** One getline: the component up to the next slash, then the rest. */
  lemma SplitStep(path: string, pos: nat, end: nat)
    requires pos <= end <= |path| && (end < |path| ==> path[end] == '/')
    requires forall k :: pos <= k < end ==> path[k] != '/'
    ensures Split(path[pos..]) == Keep(path[pos..end]) + if end < |path| then Split(path[end + 1..]) else []
  {
    var s := path[pos..];
    SlashIs(s, end - pos);
    assert s[..end - pos] == path[pos..end];
    if end < |path| {
      assert s[end - pos + 1..] == path[end + 1..];
    } else {
      assert s == path[pos..end] && Keep(s) + [] == Keep(s);
    }
  }

  method SplitPath(path: string) returns (parts: seq<string>)
    ensures parts == Split(path)
  {
    hide Split;
    parts := [];
    var pos := 0;
    assert path[0..] == path && parts + Split(path) == Split(path);
    while pos < |path|
      invariant 0 <= pos <= |path|
      invariant parts + Split(path[pos..]) == Split(path)
    {
      var end := pos;
      while end < |path| && path[end] != '/'
        invariant pos <= end <= |path|
        invariant forall k :: pos <= k < end ==> path[k] != '/'
      {
        end := end + 1;
      }
      var part := path[pos..end];
      SplitStep(path, pos, end);
      SplitEmpty();
      assert path[|path|..] == "";
      ghost var rest := if end < |path| then Split(path[end + 1..]) else [];
      assert parts + (Keep(part) + rest) == (parts + Keep(part)) + rest;
      if |part| > 0 && part != "." {
        parts := parts + [part];
      } else {
        assert parts + Keep(part) == parts;
      }
      pos := if end < |path| then end + 1 else end;
    }
    SplitEmpty();
    assert path[pos..] == "";
  }

  method JoinPath(parts: seq<string>) returns (path: string)
    ensures path == Join(parts)
  {
    if |parts| == 0 { return "/"; }
    path := "";
    var i := 0;
    assert parts[0..] == parts;
    while i < |parts|
      invariant 0 <= i <= |parts|
      invariant path + Slashed(parts[i..]) == Slashed(parts)
    {
      assert parts[i..][0] == parts[i] && parts[i..][1..] == parts[i + 1..];
      assert path + Slashed(parts[i..]) == path + "/" + parts[i] + Slashed(parts[i + 1..]);
      path := path + "/" + parts[i];
      i := i + 1;
    }
    assert parts[i..] == [];
  }

  method NormalizePath(path: string) returns (normal: string)
    ensures normal == Normalize(path)
  {
    var parts := SplitPath(path);
    var normalized: seq<string> := [];
    var i := 0;
    assert parts[0..] == parts;
    while i < |parts|
      invariant 0 <= i <= |parts|
      invariant Resolve(parts[i..], normalized) == Resolve(parts, [])
    {
      var part := parts[i];
      assert parts[i..][0] == part && parts[i..][1..] == parts[i + 1..];
      if part == ".." {
        if |normalized| > 0 { normalized := normalized[..|normalized| - 1]; }
      } else if part != "." {
        normalized := normalized + [part];
      }
      i := i + 1;
    }
    assert parts[i..] == [];
    normal := JoinPath(normalized);
  }

  /** pathContains: a comparison of strings that decides a relation on component lists. */
  method PathContains(parent: string, child: string) returns (contains: bool)
    ensures contains <==> Components(parent) < Components(child)
  {
    hide Components, Resolve;
    ContainsIsStrictPrefix(parent, child);
    var normParent := NormalizePath(parent);
    var normChild := NormalizePath(child);
    if |normParent| >= |normChild| { return false; }
    contains := normChild[..|normParent|] == normParent
                && (normChild[|normParent|] == '/' || normParent == "/");
  }
}
