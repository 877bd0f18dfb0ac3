/** Path normalisation and the sandbox test of file transfers (src/common/file.cpp), for the separator '/'. */
module Paths {

  const SEP: char := '/'

  /** Where the first `c` stands, or the length of the string. */
  function Find(s: string, c: char): (k: nat)
    ensures k <= |s| && (k < |s| ==> s[k] == c) && forall i :: 0 <= i < k ==> s[i] != c
  {
    if s == "" || s[0] == c then 0 else 1 + Find(s[1..], c)
  }

  /** The pieces between separators, empty ones included. */
  function Components(s: string): (r: seq<string>)
    ensures |r| > 0
    decreases |s|
  {
    var k := Find(s, SEP);
    if k == |s| then [s] else [s[..k]] + Components(s[k + 1..])
  }

  /** One component against the stack of names: ".." above the root is dropped. */
  function Push(names: seq<string>, group: string): seq<string>
  {
    if group == "" || group == "." then names
    else if group == ".." then (if names == [] then [] else names[..|names| - 1])
    else names + [group]
  }

  function Walk(names: seq<string>, groups: seq<string>): seq<string>
    decreases |groups|
  {
    if groups == [] then names else Walk(Push(names, groups[0]), groups[1..])
  }

  /** The names a path resolves to. */
  function Names(path: string): seq<string>
  {
    Walk([], Components(path))
  }

  function Flat(names: seq<string>): string
  {
    if names == [] then "" else "/" + names[0] + Flat(names[1..])
  }

  function Render(names: seq<string>): string
  {
    if names == [] then "/" else Flat(names)
  }

  function Simplified(path: string): string
  {
    Render(Names(path))
  }

  predicate NormalName(n: string)
  {
    n != "" && n != "." && n != ".." && SEP !in n
  }

  predicate Normal(names: seq<string>)
  {
    forall i :: 0 <= i < |names| ==> NormalName(names[i])
  }

  // ------------------------------------------------------------ components

  lemma {:induction false} FindSlash(a: string, b: string)
    requires SEP !in a
    ensures Find(a + "/" + b, SEP) == |a| && Find(a, SEP) == |a|
  {
    var s := a + "/" + b;
    if a != "" {
      assert s[1..] == a[1..] + "/" + b;
      FindSlash(a[1..], b);
    }
  }

  lemma ComponentsFirst(a: string, b: string)
    requires SEP !in a
    ensures Components(a + "/" + b) == [a] + Components(b)
  {
    var s := a + "/" + b;
    FindSlash(a, b);
    assert s[..|a|] == a && s[|a| + 1..] == b;
  }

  lemma {:induction false} FindWithin(a: string, b: string)
    requires Find(a, SEP) < |a|
    ensures Find(a + b, SEP) == Find(a, SEP)
  {
    if a != "" && a[0] != SEP {
      assert (a + b)[1..] == a[1..] + b;
      FindWithin(a[1..], b);
    }
  }

  lemma JoinShift(x: string, y: string, b: string)
    ensures x + "/" + y + "/" + b == x + "/" + (y + "/" + b)
  {
  }

  lemma AtSlash(a: string, k: nat)
    requires k == Find(a, SEP) < |a|
    ensures a == a[..k] + "/" + a[k + 1..] && SEP !in a[..k]
  {
    Around(a, k);
  }

  lemma Around(a: string, k: nat)
    requires k < |a| && a[k] == SEP && forall i :: 0 <= i < k ==> a[i] != SEP
    ensures a == a[..k] + "/" + a[k + 1..] && SEP !in a[..k]
  {
  }

  /** The components of a joined path are those of its parts. */
  lemma {:induction false} ComponentsJoin(a: string, b: string)
    ensures Components(a + "/" + b) == Components(a) + Components(b)
    decreases |a|
  {
    var k := Find(a, SEP);
    if k == |a| {
      ComponentsFirst(a, b);
    } else {
      var x, y := a[..k], a[k + 1..];
      AtSlash(a, k);
      JoinShift(x, y, b);
      ComponentsFirst(x, y + "/" + b);
      ComponentsFirst(x, y);
      ComponentsJoin(y, b);
      Reassociate(x, Components(y), Components(b));
    }
  }

  lemma Reassociate(a: string, b: seq<string>, c: seq<string>)
    ensures [a] + (b + c) == [a] + b + c
  {
  }

  lemma {:induction false} ComponentsSlashFree(s: string)
    ensures forall i :: 0 <= i < |Components(s)| ==> SEP !in Components(s)[i]
    decreases |s|
  {
    var k := Find(s, SEP);
    if k < |s| {
      ComponentsSlashFree(s[k + 1..]);
    }
  }

  // ------------------------------------------------------------ walking

  lemma {:induction false} WalkJoin(names: seq<string>, a: seq<string>, b: seq<string>)
    ensures Walk(names, a + b) == Walk(Walk(names, a), b)
    decreases |a|
  {
    if a == [] {
      assert a + b == b;
    } else {
      assert (a + b)[1..] == a[1..] + b;
      WalkJoin(Push(names, a[0]), a[1..], b);
    }
  }

  lemma {:induction false} WalkNormal(names: seq<string>, groups: seq<string>)
    requires Normal(names) && forall i :: 0 <= i < |groups| ==> SEP !in groups[i]
    ensures Normal(Walk(names, groups))
    decreases |groups|
  {
    if groups != [] {
      WalkNormal(Push(names, groups[0]), groups[1..]);
    }
  }

  lemma {:induction false} WalkNames(names: seq<string>, more: seq<string>)
    requires Normal(more)
    ensures Walk(names, more) == names + more
    decreases |more|
  {
    if more != [] {
      assert NormalName(more[0]);
      WalkNames(names + [more[0]], more[1..]);
      assert names + [more[0]] + more[1..] == names + more;
    } else {
      assert names + more == names;
    }
  }

  /** The result has no empty, "." or ".." component. */
  lemma NamesNormal(path: string)
    ensures Normal(Names(path))
  {
    ComponentsSlashFree(path);
    WalkNormal([], Components(path));
  }

  lemma FlatHead(before: string, names: seq<string>)
    requires names != []
    ensures before + Flat(names) == before + "/" + (names[0] + Flat(names[1..]))
  {
    assert before + ("/" + names[0] + Flat(names[1..])) == before + "/" + (names[0] + Flat(names[1..]));
  }

  lemma ComponentsOne(name: string)
    requires SEP !in name
    ensures Components(name) == [name]
  {
    FindSlash(name, "");
  }

  lemma HeadTail(names: seq<string>)
    requires names != []
    ensures [names[0]] + names[1..] == names
  {
  }

  lemma {:induction false} ComponentsAfter(name: string, rest: seq<string>)
    requires NormalName(name) && Normal(rest)
    ensures Components(name + Flat(rest)) == [name] + rest
    decreases |rest|
  {
    if rest == [] {
      assert name + Flat(rest) == name;
      ComponentsOne(name);
    } else {
      assert NormalName(rest[0]);
      ComponentsAfter(rest[0], rest[1..]);
      FlatHead(name, rest);
      ComponentsFirst(name, rest[0] + Flat(rest[1..]));
      HeadTail(rest);
    }
  }

  lemma ComponentsFlat(names: seq<string>)
    requires Normal(names) && names != []
    ensures Components(Flat(names)) == [""] + names
  {
    FlatHead("", names);
    assert "" + Flat(names) == Flat(names);
    ComponentsFirst("", names[0] + Flat(names[1..]));
    ComponentsAfter(names[0], names[1..]);
    HeadTail(names);
  }

  /** A normal form is read as the names it was made of. */
  lemma NamesOfRendered(names: seq<string>)
    requires Normal(names)
    ensures Names(Render(names)) == names
  {
    if names == [] {
      ComponentsFirst("", "");
      assert "" + "/" + "" == "/";
      assert Components("") == [""];
      assert Walk([], ["", ""]) == Walk([], ["", ""][1..]) == Walk([], ["", ""][1..][1..]);
    } else {
      ComponentsFlat(names);
      assert ([""] + names)[1..] == names;
      WalkNames([], names);
      assert [] + names == names;
    }
  }

  lemma SimplifiedTwice(path: string)
    ensures Simplified(Simplified(path)) == Simplified(path)
  {
    NamesNormal(path);
    NamesOfRendered(Names(path));
  }

  // ------------------------------------------------------------ appending

  lemma {:induction false} WalkKeepsBase(base: seq<string>, more: seq<string>, groups: seq<string>)
    requires forall i :: 0 <= i < |groups| ==> groups[i] != ".."
    ensures base + more <= Walk(base + more, groups)
    decreases |groups|
  {
    if groups != [] {
      var g := groups[0];
      var next := if g == "" || g == "." then more else more + [g];
      assert base + more + [g] == base + (more + [g]);
      assert Push(base + more, g) == base + next;
      WalkKeepsBase(base, next, groups[1..]);
    }
  }

  /** A relative path without ".." never leaves the base it is appended to. */
  lemma AppendStaysInside(base: string, relative: string)
    requires forall i :: 0 <= i < |Components(relative)| ==> Components(relative)[i] != ".."
    ensures Names(base) <= Names(base + "/" + relative)
  {
    ComponentsJoin(base, relative);
    WalkJoin([], Components(base), Components(relative));
    WalkKeepsBase(Names(base), [], Components(relative));
    assert Names(base) + [] == Names(base);
  }

  // ------------------------------------------------------------ what a path resolves to, on path strings

  lemma NamesJoin(base: string, rest: string)
    ensures Names(base + "/" + rest) == Walk(Names(base), Components(rest))
  {
    ComponentsJoin(base, rest);
    WalkJoin([], Components(base), Components(rest));
  }

  /** One component between a base and a rest. */
  lemma NamesThrough(base: string, group: string, rest: string)
    requires SEP !in group
    ensures Names(base + "/" + (group + "/" + rest)) == Walk(Push(Names(base), group), Components(rest))
  {
    NamesJoin(base, group + "/" + rest);
    ComponentsFirst(group, rest);
    WalkOne(Names(base), group, Components(rest));
  }

  /** The empty path and the root have no name. */
  lemma NamesOfNothing()
    ensures Names("") == [] && Names("/") == []
  {
    assert Components("") == [""];
    assert Walk([], [""]) == Walk([], [""][1..]);
    NamesJoin("", "");
    assert "" + "/" + "" == "/";
  }

  /** A plain name is appended. */
  lemma NameAppended(base: string, n: string)
    requires NormalName(n)
    ensures Names(base + "/" + n) == Names(base) + [n]
  {
    NamesJoin(base, n);
    ComponentsOne(n);
    assert Walk(Names(base), [n]) == Walk(Push(Names(base), n), [n][1..]);
  }

  /** A doubled separator changes nothing. */
  lemma EmptySkipped(base: string, rest: string)
    ensures Names(base + "//" + rest) == Names(base + "/" + rest)
  {
    NamesJoin(base, rest);
    NamesThrough(base, "", rest);
    Doubled(base, rest);
  }

  lemma Doubled(base: string, rest: string)
    ensures base + "//" + rest == base + "/" + ("" + "/" + rest)
  {
    assert "" + "/" + rest == "/" + rest;
  }

  /** Nor does ".". */
  lemma DotSkipped(base: string, rest: string)
    ensures Names(base + "/./" + rest) == Names(base + "/" + rest)
  {
    NamesJoin(base, rest);
    NamesThrough(base, ".", rest);
    Dotted(base, rest);
  }

  lemma Dotted(base: string, rest: string)
    ensures base + "/./" + rest == base + "/" + ("." + "/" + rest)
    ensures base + "/../" + rest == base + "/" + (".." + "/" + rest)
  {
    assert "." + "/" + rest == "./" + rest && ".." + "/" + rest == "../" + rest;
  }

  /** ".." takes the name before it away. */
  lemma DotDotRemoves(base: string, n: string, rest: string)
    requires NormalName(n)
    ensures Names(base + "/" + n + "/../" + rest) == Names(base + "/" + rest)
  {
    NameAppended(base, n);
    NamesThrough(base + "/" + n, "..", rest);
    Dotted(base + "/" + n, rest);
    assert (Names(base) + [n])[..|Names(base)|] == Names(base);
    NamesJoin(base, rest);
  }

  /** And nothing at the root. */
  lemma DotDotAtRoot(base: string, rest: string)
    requires Names(base) == []
    ensures Names(base + "/../" + rest) == Names(base + "/" + rest)
  {
    NamesThrough(base, "..", rest);
    Dotted(base, rest);
    NamesJoin(base, rest);
  }

  lemma DotDotFirst(rest: string)
    ensures Names("/../" + rest) == Names("/" + rest)
  {
    NamesOfNothing();
    DotDotAtRoot("", rest);
    assert "" + "/../" + rest == "/../" + rest && "" + "/" + rest == "/" + rest;
  }

  // ------------------------------------------------------------ the sandbox test

  /** The length test and the comparison of the first characters, for strings without NUL. */
  predicate Inside(path: string, appDir: string)
  {
    |path| >= |appDir| && appDir + "/" <= path + "/"
  }

  lemma SlashFreeHeads(a: string, x: string, p: string, y: string)
    requires SEP !in a && SEP !in p && x != "" && x[0] == SEP && y != "" && y[0] == SEP
    ensures a + x <= p + y <==> a == p && x <= y
  {
    var s, t := a + x, p + y;
    assert x == "/" + x[1..] && y == "/" + y[1..];
    assert s == a + "/" + x[1..] && t == p + "/" + y[1..];
    FindSlash(a, x[1..]);
    FindSlash(p, y[1..]);
    if s <= t {
      assert t == s + t[|s|..];
      FindWithin(s, t[|s|..]);
      assert |a| == |p|;
      assert a == s[..|a|] == t[..|a|] == p;
      assert x == s[|a|..] && y == t[|p|..];
    }
  }

  lemma {:induction false} PrefixOfFlat(dir: seq<string>, names: seq<string>)
    requires Normal(dir) && Normal(names)
    ensures Flat(dir) + "/" <= Flat(names) + "/" <==> dir <= names
    decreases |dir|
  {
    if dir == [] {
      assert Flat(dir) + "/" == "/";
    } else if names == [] {
      assert |Flat(dir) + "/"| > 1;
    } else {
      var x, y := Flat(dir[1..]) + "/", Flat(names[1..]) + "/";
      assert NormalName(dir[0]) && NormalName(names[0]);
      FlatSlash(dir);
      FlatSlash(names);
      FlatStarts(dir[1..]);
      FlatStarts(names[1..]);
      SlashFreeHeads(dir[0], x, names[0], y);
      PrefixOfFlat(dir[1..], names[1..]);
      HeadedPrefix(dir[0] + x, names[0] + y);
      PrefixHeads(dir, names);
    }
  }

  lemma FlatSlash(names: seq<string>)
    requires names != []
    ensures Flat(names) + "/" == "/" + (names[0] + (Flat(names[1..]) + "/"))
  {
    assert ("/" + names[0] + Flat(names[1..])) + "/" == "/" + (names[0] + (Flat(names[1..]) + "/"));
  }

  lemma FlatStarts(names: seq<string>)
    ensures Flat(names) + "/" != "" && (Flat(names) + "/")[0] == SEP
  {
  }

  lemma PrefixHeads(a: seq<string>, b: seq<string>)
    requires a != [] && b != []
    ensures a <= b <==> a[0] == b[0] && a[1..] <= b[1..]
  {
    assert a == [a[0]] + a[1..] && b == [b[0]] + b[1..];
  }

  lemma HeadedPrefix(s: string, t: string)
    ensures "/" + s <= "/" + t <==> s <= t
  {
    assert ("/" + s)[1..] == s && ("/" + t)[1..] == t;
  }

  lemma {:induction false} FlatLength(a: seq<string>, b: seq<string>)
    requires a <= b
    ensures |Flat(a)| <= |Flat(b)|
    decreases |a|
  {
    if a != [] {
      FlatLength(a[1..], b[1..]);
    }
  }

  /** On normal forms the test says exactly that the directory's names come first. The root as directory
      is the exception: nothing but the root itself passes, because its separator is then doubled. */
  lemma InsideIff(names: seq<string>, dir: seq<string>)
    requires Normal(names) && Normal(dir)
    ensures Inside(Render(names), Render(dir)) <==> if dir == [] then names == [] else dir <= names
  {
    if dir != [] {
      PrefixOfFlat(dir, names);
      if names == [] {
        assert Flat(dir)[0] == SEP;
        assert NormalName(dir[0]);
        assert |Flat(dir)| > 1;
      } else if dir <= names {
        FlatLength(dir, names);
      }
    } else if names != [] {
      assert NormalName(names[0]);
      assert (Render(names) + "/")[1] == names[0][0];
      assert "//"[1] == SEP;
    }
  }

  // ------------------------------------------------------------ the loops

  lemma WalkOne(names: seq<string>, group: string, groups: seq<string>)
    ensures Walk(names, [group] + groups) == Walk(Push(names, group), groups)
  {
    assert ([group] + groups)[1..] == groups;
  }

  lemma WalkStep(names: seq<string>, rest: string)
    ensures var k := Find(rest, SEP);
      Walk(names, Components(rest)) ==
        if k == |rest| then Push(names, rest[..k]) else Walk(Push(names, rest[..k]), Components(rest[k + 1..]))
  {
    var k := Find(rest, SEP);
    if k == |rest| {
      assert rest[..k] == rest && [rest] + [] == [rest];
      WalkOne(names, rest, []);
    } else {
      WalkOne(names, rest[..k], Components(rest[k + 1..]));
    }
  }

  /** getline over the separators, and the stack of names. */
  method PathSimplify(path: string) returns (r: string)
    ensures r == Simplified(path)
  {
    var nameVec: seq<string> := [];
    var rest, more := path, true;
    while more
      invariant more ==> Walk(nameVec, Components(rest)) == Names(path)
      invariant !more ==> nameVec == Names(path)
      decreases more, |rest|
    {
      var k := Find(rest, SEP);
      var group := rest[..k];
      WalkStep(nameVec, rest);
      if group == "" || group == "." {
      } else if group == ".." && |nameVec| != 0 {
        nameVec := nameVec[..|nameVec| - 1];
      } else if group != ".." {
        nameVec := nameVec + [group];
      }
      if k == |rest| {
        more := false;
      } else {
        rest := rest[k + 1..];
      }
    }
    var outPath := Append(nameVec);
    r := if |outPath| != 0 then outPath else "/";
  }

  /** The loop that puts the names together again. */
  method Append(nameVec: seq<string>) returns (outPath: string)
    ensures outPath == Flat(nameVec)
  {
    outPath := "";
    var i := 0;
    assert nameVec[0..] == nameVec && "" + Flat(nameVec) == Flat(nameVec);
    while i < |nameVec|
      invariant i <= |nameVec| && outPath + Flat(nameVec[i..]) == Flat(nameVec)
    {
      FlatStep(outPath, nameVec[i..]);
      assert nameVec[i..][1..] == nameVec[i + 1..];
      outPath := outPath + "/" + nameVec[i];
      i := i + 1;
    }
    assert outPath + "" == outPath;
  }

  lemma FlatStep(before: string, names: seq<string>)
    requires names != []
    ensures before + Flat(names) == before + "/" + names[0] + Flat(names[1..])
  {
    assert before + ("/" + names[0] + Flat(names[1..])) == before + "/" + names[0] + Flat(names[1..]);
  }

  // ------------------------------------------------------------ the path below the application directory

  /** CheckPathTraversal reads both separators. */
  function Slashed(s: string): (r: string)
    ensures |r| == |s| && forall i :: 0 <= i < |s| ==> r[i] == if s[i] == '\\' then SEP else s[i]
  {
    seq(|s|, i requires 0 <= i < |s| => if s[i] == '\\' then SEP else s[i])
  }

  predicate Traverses(path: string)
  {
    ".." in Components(Slashed(path))
  }

  /** Two dots at position i with the end of the path or a separator of either kind on both sides. */
  predicate DotsAt(path: string, i: int)
  {
    && 0 <= i && i + 2 <= |path| && path[i] == '.' && path[i + 1] == '.'
    && (i == 0 || path[i - 1] == '/' || path[i - 1] == '\\')
    && (i + 2 == |path| || path[i + 2] == '/' || path[i + 2] == '\\')
  }

  lemma SlashedDots(path: string, i: int)
    ensures DotsAt(Slashed(path), i) <==> DotsAt(path, i)
  {
  }

  /** A ".." behind the first separator is one of the rest. */
  lemma DotsShift(t: string, k: nat, i: int)
    requires k < |t| && t[k] == SEP && i > k
    ensures DotsAt(t, i) <==> DotsAt(t[k + 1..], i - k - 1)
  {
  }

  lemma DotsFirst(t: string, k: nat, i: int)
    requires k <= |t| && (k < |t| ==> t[k] == SEP) && (forall j :: 0 <= j < k ==> t[j] != '/' && t[j] != '\\') && i <= k
    ensures DotsAt(t, i) <==> i == 0 && t[..k] == ".."
  {
  }

  ghost predicate HasDots(t: string)
  {
    exists i :: DotsAt(t, i)
  }

  lemma DotsSplit(t: string, k: nat)
    requires k < |t| && t[k] == SEP && forall j :: 0 <= j < k ==> t[j] != '/' && t[j] != '\\'
    ensures HasDots(t) <==> t[..k] == ".." || HasDots(t[k + 1..])
  {
    DotsFirst(t, k, 0);
    if HasDots(t) {
      var i :| DotsAt(t, i);
      if i <= k {
        DotsFirst(t, k, i);
      } else {
        DotsShift(t, k, i);
      }
    }
    if HasDots(t[k + 1..]) {
      var j :| DotsAt(t[k + 1..], j);
      DotsShift(t, k, j + k + 1);
    }
  }

  lemma DotsWhole(t: string)
    requires forall j :: 0 <= j < |t| ==> t[j] != '/' && t[j] != '\\'
    ensures HasDots(t) <==> t == ".."
  {
    assert t[..|t|] == t;
    DotsFirst(t, |t|, 0);
    if HasDots(t) {
      var i :| DotsAt(t, i);
      DotsFirst(t, |t|, i);
    }
  }

  lemma {:induction false} ComponentDots(t: string)
    requires '\\' !in t
    ensures ".." in Components(t) <==> HasDots(t)
    decreases |t|
  {
    var k := Find(t, SEP);
    if k < |t| {
      DotsSplit(t, k);
      ComponentDots(t[k + 1..]);
    } else {
      DotsWhole(t);
    }
  }

  /** The test on the characters of the path. */
  lemma TraversesIff(path: string)
    ensures Traverses(path) <==> exists i :: DotsAt(path, i)
  {
    var t := Slashed(path);
    ComponentDots(t);
    if HasDots(t) {
      var i :| DotsAt(t, i);
      SlashedDots(path, i);
    }
    if i :| DotsAt(path, i) {
      SlashedDots(path, i);
    }
  }

  /** The loop over the components; getline leaves out an empty last one, which is not "..". */
  method CheckPathTraversal(path: string) returns (ok: bool)
    ensures ok == !Traverses(path)
  {
    var rest := Slashed(path);
    var more := true;
    while more
      invariant more ==> (".." in Components(rest) <==> Traverses(path))
      invariant !more ==> !Traverses(path)
      decreases more, |rest|
    {
      var k := Find(rest, SEP);
      assert k == |rest| ==> rest[..k] == rest;
      assert Components(rest)[0] == rest[..k];
      if rest[..k] == ".." {
        return false;
      }
      if k == |rest| {
        more := false;
      } else {
        rest := rest[k + 1..];
      }
    }
    ok := true;
  }

  lemma SlashedJoin(a: string, b: string)
    ensures Slashed(a + "/" + b) == Slashed(a) + "/" + Slashed(b)
  {
  }

  lemma DotsComponent()
    ensures Components("..") == [".."] && Slashed("..") == ".."
  {
    FindSlash("..", "");
  }

  /** A ".." between slashes is one between separators of either kind. */
  lemma {:induction false} TraversalSeen(s: string)
    requires ".." in Components(s)
    ensures Traverses(s)
    decreases |s|
  {
    var k := Find(s, SEP);
    if k == |s| {
      DotsComponent();
    } else {
      var a, b := s[..k], s[k + 1..];
      assert s == a + "/" + b;
      SlashedJoin(a, b);
      ComponentsJoin(Slashed(a), Slashed(b));
      if a == ".." {
        DotsComponent();
      } else {
        TraversalSeen(b);
      }
    }
  }

  /** GetPathWithoutFilename: everything up to the last separator. */
  function DirPart(s: string): string
  {
    if SEP !in s || s[|s| - 1] == SEP then s else DirPart(s[..|s| - 1])
  }

  lemma {:induction false} DirPartOf(dir: string, name: string)
    requires SEP !in name
    ensures DirPart(dir + "/" + name) == dir + "/"
    decreases |name|
  {
    var s := dir + "/" + name;
    assert s[|dir|] == SEP;
    if name == "" {
      assert s == dir + "/";
    } else {
      assert s[..|s| - 1] == dir + "/" + name[..|name| - 1];
      DirPartOf(dir, name[..|name| - 1]);
    }
  }

  lemma {:induction false} FlatSnoc(names: seq<string>, name: string)
    ensures Flat(names + [name]) == Flat(names) + "/" + name
    decreases |names|
  {
    if names == [] {
      assert names + [name] == [name] && [name][1..] == [];
    } else {
      var all := names + [name];
      assert all[1..] == names[1..] + [name] && all[0] == names[0];
      FlatSnoc(names[1..], name);
      FlatSplit(names[0], Flat(names[1..]), "/" + name);
    }
  }

  lemma FlatSplit(first: string, flat: string, last: string)
    ensures "/" + first + (flat + last) == "/" + first + flat + last
  {
  }

  lemma TrailingSlash(s: string)
    ensures Names(s + "/") == Names(s)
  {
    assert s + "/" == s + "/" + "" && Components("") == [""];
    ComponentsJoin(s, "");
    WalkJoin([], Components(s), [""]);
    WalkOne(Names(s), "", []);
    assert [""] + [] == [""];
  }

  /** Popping separators off the end, unless a dot stands before them. */
  method PopSlashes(path: string) returns (r: string)
    ensures Names(r) == Names(path)
  {
    r := path;
    while |r| >= 2 && r[|r| - 1] == SEP && r[|r| - 2] != '.'
      invariant Names(r) == Names(path)
      decreases |r|
    {
      assert r == r[..|r| - 1] + "/";
      TrailingSlash(r[..|r| - 1]);
      r := r[..|r| - 1];
    }
  }

  lemma ParentOf(names: seq<string>)
    requires Normal(names) && names != []
    ensures var parent := names[..|names| - 1];
      DirPart(Flat(names)) == Flat(parent) + "/" && Names(Flat(parent) + "/") == parent
  {
    var parent, last := names[..|names| - 1], names[|names| - 1];
    assert names == parent + [last] && NormalName(last);
    FlatSnoc(parent, last);
    DirPartOf(Flat(parent), last);
    NamesOfRendered(parent);
    TrailingSlash(Flat(parent));
    if parent == [] {
      assert Flat(parent) + "/" == "/";
    }
  }

  lemma InsideParent(parent: seq<string>, dir: seq<string>)
    requires Normal(parent) && Normal(dir) && dir != [] && dir <= parent
    ensures Inside(Flat(parent) + "/", Render(dir))
  {
    PrefixOfFlat(dir, parent);
    FlatLength(dir, parent);
  }

  lemma ProperPrefix(dir: seq<string>, names: seq<string>)
    requires dir <= names
    ensures dir == names || (|dir| < |names| && dir <= names[..|names| - 1])
  {
    if |dir| == |names| {
      assert names[..|dir|] == names;
    }
  }

  lemma {:induction false} LongerFlat(dir: seq<string>, names: seq<string>)
    requires Normal(names) && dir <= names
    ensures |Flat(names)| > |Flat(dir)| + 1 || names == dir
    decreases |dir|
  {
    if dir == [] {
      if names != [] {
        assert NormalName(names[0]);
      }
    } else {
      LongerFlat(dir[1..], names[1..]);
      assert names == [names[0]] + names[1..] && dir == [dir[0]] + dir[1..];
    }
  }

  /** The sandbox test as a whole, with `base` the directory of the bundle and its canonical form as appDir:
      a path is accepted if and only if it has no ".." between separators of either kind, and then what it
      resolves to, less its last name, is not above the application directory. */
  method CheckSandboxSubPath(base: string, inputLocalPath: string) returns (ok: bool, resolvedPath: string)
    requires Names(base) != []
    ensures ok <==> !Traverses(inputLocalPath)
    ensures ok ==>
      var dir, all := Names(base), Names(base + "/" + inputLocalPath);
      dir <= all && dir <= Names(resolvedPath) && Names(resolvedPath) == if all == dir then dir else all[..|all| - 1]
  {
    var appDir := PathSimplify(base);
    var safe := CheckPathTraversal(inputLocalPath);
    if !safe {
      return false, "";
    }
    var fullPath := PopSlashes(base + "/" + inputLocalPath);
    ghost var dir, all := Names(base), Names(base + "/" + inputLocalPath);
    Below(base, inputLocalPath);
    resolvedPath := PathSimplify(fullPath);
    assert resolvedPath == Flat(all) && appDir == Flat(dir);
    LongerFlat(dir, all);
    NamesOfRendered(all);
    if |resolvedPath| > |appDir| + 1 {
      ParentOf(all);
      ProperPrefix(dir, all);
      InsideParent(all[..|all| - 1], dir);
      resolvedPath := DirPart(resolvedPath);
    } else {
      InsideIff(all, dir);
    }
    ok := Inside(resolvedPath, appDir);
  }

  lemma Below(base: string, relative: string)
    requires !Traverses(relative) && Names(base) != []
    ensures Normal(Names(base)) && Normal(Names(base + "/" + relative))
    ensures Names(base) <= Names(base + "/" + relative) && Names(base + "/" + relative) != []
  {
    NamesNormal(base);
    NamesNormal(base + "/" + relative);
    if i :| 0 <= i < |Components(relative)| && Components(relative)[i] == ".." {
      TraversalSeen(relative);
    }
    AppendStaysInside(base, relative);
  }
}
