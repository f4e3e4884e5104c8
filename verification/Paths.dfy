/** Lexical path normalization, and what it preserves when paths are resolved in
    a tree without symbolic links. */
module Paths {
  import opened Machine

  datatype Component = Volume(id: nat) | RootDir | CurDir | ParentDir | Normal(name: string)

  // ----- normalization

  predicate EndsNormal(path: seq<Component>) { |path| > 0 && path[|path| - 1].Normal? }

  function Push(normalized: seq<Component>, c: Component): seq<Component>
  {
    match c
    case CurDir => normalized
    case ParentDir => if EndsNormal(normalized) then normalized[..|normalized| - 1] else normalized + [c]
    case _ => normalized + [c]
  }

  function Normalized(path: seq<Component>): seq<Component>
  {
    if |path| == 0 then [] else Push(Normalized(path[..|path| - 1]), path[|path| - 1])
  }

  method NormalizePath(path: seq<Component>) returns (normalized: seq<Component>)
    ensures normalized == Normalized(path)
    ensures NormalForm(normalized)
  {
    normalized := [];
    for i := 0 to |path|
      invariant normalized == Normalized(path[..i])
    {
      var component := path[i];
      NormalizedNext(path, i);
      match component
      case CurDir =>
      case ParentDir =>
        if |normalized| > 0 && normalized[|normalized| - 1].Normal? {
          normalized := normalized[..|normalized| - 1];
        } else {
          normalized := normalized + [component];
        }
      case _ => normalized := normalized + [component];
    }
    assert path[..|path|] == path;
    NormalizedForm(path);
  }

  lemma NormalizedNext(path: seq<Component>, i: nat)
    requires i < |path|
    ensures Normalized(path[..i + 1]) == Push(Normalized(path[..i]), path[i])
  {
    assert path[..i + 1][..i] == path[..i];
  }

  /** No `.`, and no `..` directly after a normal component. */
  predicate NormalForm(path: seq<Component>)
  {
    && (forall i :: 0 <= i < |path| ==> path[i] != CurDir)
    && forall i :: 0 < i < |path| && path[i - 1].Normal? ==> path[i] != ParentDir
  }

  lemma {:induction false} NormalizedForm(path: seq<Component>)
    ensures NormalForm(Normalized(path))
  {
    if |path| > 0 { NormalizedForm(path[..|path| - 1]); }
  }

  lemma {:induction false} NormalFormFixed(path: seq<Component>)
    requires NormalForm(path)
    ensures Normalized(path) == path
  {
    if |path| > 0 {
      PushLast(path);
      NormalFormFixed(path[..|path| - 1]);
    }
  }

  /** The last component of a normal form is pushed as it is. */
  lemma PushLast(path: seq<Component>)
    requires NormalForm(path) && |path| > 0
    ensures NormalForm(path[..|path| - 1]) && Push(path[..|path| - 1], path[|path| - 1]) == path
  {
    var n := |path| - 1;
    var front := path[..n];
    assert forall i :: 0 <= i < n ==> front[i] == path[i];
    assert path == front + [path[n]];
  }

  lemma NormalizeIdempotent(path: seq<Component>)
    ensures Normalized(Normalized(path)) == Normalized(path)
  {
    NormalizedForm(path);
    NormalFormFixed(Normalized(path));
  }

  // ----- resolution

  datatype Place = Place(volume: nat, dir: seq<string>)

  /** Which directories exist, and where each volume's relative paths start. */
  datatype World = World(present: Place -> bool, current: nat -> seq<string>)

  function Parent(p: Place): Place
  {
    if |p.dir| == 0 then p else p.(dir := p.dir[..|p.dir| - 1])
  }

  function Enter(w: World, p: Place, c: Component): Option<Place>
  {
    match c
    case Volume(v) => Some(Place(v, w.current(v)))
    case RootDir => Some(Place(p.volume, []))
    case CurDir => Some(p)
    case ParentDir => Some(Parent(p))
    case Normal(n) =>
      var q := p.(dir := p.dir + [n]);
      if w.present(q) then Some(q) else None
  }

  function Walk(w: World, from: Place, path: seq<Component>): Option<Place>
  {
    if |path| == 0 then Some(from)
    else match Walk(w, from, path[..|path| - 1])
      case None => None
      case Some(p) => Enter(w, p, path[|path| - 1])
  }

  lemma WalkSnoc(w: World, from: Place, path: seq<Component>, c: Component)
    ensures Walk(w, from, path + [c])
         == match Walk(w, from, path) case None => None case Some(p) => Enter(w, p, c)
  {
    assert (path + [c])[..|path|] == path;
  }

  /** Wherever the original path leads, from any directory of any tree, the
      normalized path leads to the same place. */
  lemma {:induction false} NormalizePreservesMeaning(w: World, from: Place, path: seq<Component>)
    ensures Walk(w, from, path).Some? ==> Walk(w, from, Normalized(path)) == Walk(w, from, path)
  {
    if |path| > 0 {
      var n := |path| - 1;
      var front, c := path[..n], path[n];
      NormalizePreservesMeaning(w, from, front);
      var s := Normalized(front);
      if c == ParentDir && EndsNormal(s) {
        var t := s[..|s| - 1];
        assert s == t + [s[|s| - 1]];
        WalkSnoc(w, from, t, s[|s| - 1]);
        if Walk(w, from, front).Some? {
          ParentOfChild(Walk(w, from, t).value, s[|s| - 1].name);
        }
      } else {
        WalkSnoc(w, from, s, c);
      }
    }
  }

  lemma ParentOfChild(p: Place, n: string)
    ensures Parent(p.(dir := p.dir + [n])) == p
  {
    assert (p.dir + [n])[..|p.dir|] == p.dir;
  }

  /** Every `..` that takes back a name takes back one that exists. */
  ghost predicate SkippedExist(w: World, from: Place, path: seq<Component>)
  {
    |path| == 0 ||
    (var front := path[..|path| - 1];
     && SkippedExist(w, from, front)
     && (path[|path| - 1] == ParentDir && EndsNormal(Normalized(front)) ==> Walk(w, from, Normalized(front)).Some?))
  }

  /** The two paths lead to the same place, or both nowhere, exactly when the
      normal form leads nowhere or every name taken back exists. */
  lemma SameMeaningIff(w: World, from: Place, path: seq<Component>)
    ensures Walk(w, from, path) == Walk(w, from, Normalized(path))
            <==> Walk(w, from, Normalized(path)).None? || SkippedExist(w, from, path)
  {
    NormalizePreservesMeaning(w, from, path);
    if SkippedExist(w, from, path) { SkippedSame(w, from, path); }
    if Walk(w, from, path).Some? { ResolvedSkips(w, from, path); }
  }

  lemma {:induction false} SkippedSame(w: World, from: Place, path: seq<Component>)
    requires SkippedExist(w, from, path)
    ensures Walk(w, from, path) == Walk(w, from, Normalized(path))
  {
    if |path| > 0 {
      var front, c := path[..|path| - 1], path[|path| - 1];
      SkippedSame(w, from, front);
      var s := Normalized(front);
      if c == ParentDir && EndsNormal(s) {
        var t := s[..|s| - 1];
        assert s == t + [s[|s| - 1]];
        WalkSnoc(w, from, t, s[|s| - 1]);
        ParentOfChild(Walk(w, from, t).value, s[|s| - 1].name);
      } else {
        WalkSnoc(w, from, s, c);
      }
    }
  }

  /** A path that resolves takes back only names that exist. */
  lemma {:induction false} ResolvedSkips(w: World, from: Place, path: seq<Component>)
    requires Walk(w, from, path).Some?
    ensures SkippedExist(w, from, path)
  {
    if |path| > 0 {
      ResolvedSkips(w, from, path[..|path| - 1]);
      NormalizePreservesMeaning(w, from, path[..|path| - 1]);
    }
  }

  /** A name taken back that does not exist. */
  lemma SkippedDirectoryMayBeMissing(from: Place, name: string)
    ensures var w := World((p: Place) => false, (v: nat) => []);
            var path := [Normal(name), ParentDir];
            Walk(w, from, path) == None && Walk(w, from, Normalized(path)) == Some(from)
  {
    var w := World((p: Place) => false, (v: nat) => []);
    var path := [Normal(name), ParentDir];
    assert path[..1] == [Normal(name)] && path[..1][..0] == [];
    assert Normalized(path[..1]) == [Normal(name)];
    assert Normalized(path) == [];
  }

  // ----- canonical forms

  /** Every directory exists. */
  ghost predicate Full(w: World) { forall p :: w.present(p) }

  lemma {:induction false} WalkTotal(w: World, from: Place, path: seq<Component>)
    requires Full(w)
    ensures Walk(w, from, path).Some?
  {
    if |path| > 0 { WalkTotal(w, from, path[..|path| - 1]); }
  }

  predicate Relative(path: seq<Component>)
  {
    forall i :: 0 <= i < |path| ==> !path[i].Volume? && !path[i].RootDir?
  }

  lemma {:induction false} NormalizedRelative(path: seq<Component>)
    requires Relative(path)
    ensures Relative(Normalized(path))
  {
    if |path| > 0 { NormalizedRelative(path[..|path| - 1]); }
  }

  /** The leading `..` of a relative normal form, and the names that follow. */
  function Ups(path: seq<Component>): (k: nat)
    ensures k <= |path|
  {
    if |path| > 0 && path[0] == ParentDir then 1 + Ups(path[1..]) else 0
  }

  function Names(path: seq<Component>): seq<string>
  {
    if |path| == 0 then []
    else (if path[0].Normal? then [path[0].name] else []) + Names(path[1..])
  }

  function Spelled(ups: nat, names: seq<string>): seq<Component>
  {
    if ups > 0 then [ParentDir] + Spelled(ups - 1, names)
    else if |names| > 0 then [Normal(names[0])] + Spelled(0, names[1..])
    else []
  }

  lemma {:induction false} NormalFormSpelled(path: seq<Component>)
    requires NormalForm(path) && Relative(path)
    ensures path == Spelled(Ups(path), Names(path))
  {
    if |path| > 0 {
      var rest := path[1..];
      assert path == [path[0]] + rest;
      assert path[0].Normal? || path[0] == ParentDir;
      assert Relative(rest) by { assert forall i :: 0 <= i < |rest| ==> rest[i] == path[i + 1]; }
      assert NormalForm(rest) by { assert forall i :: 0 <= i < |rest| ==> rest[i] == path[i + 1]; }
      NormalFormSpelled(rest);
      if path[0].Normal? {
        assert |rest| > 0 ==> rest[0] == path[1];
        assert Names(path)[1..] == Names(rest);
      } else {
        assert Names(path) == Names(rest);
      }
    }
  }

  /** Where a spelled path leads. */
  function Landing(dir: seq<string>, ups: nat, names: seq<string>): seq<string>
  {
    dir[..Max(|dir| - ups, 0)] + names
  }

  lemma {:induction false} WalkConcat(w: World, from: Place, a: seq<Component>, b: seq<Component>)
    ensures Walk(w, from, a + b)
         == match Walk(w, from, a) case None => None case Some(p) => Walk(w, p, b)
  {
    if |b| == 0 {
      assert a + b == a;
    } else {
      var n := |b| - 1;
      assert (a + b)[..|a| + n] == a + b[..n];
      WalkConcat(w, from, a, b[..n]);
    }
  }

  lemma {:induction false} WalkSpelled(w: World, from: Place, ups: nat, names: seq<string>)
    requires Full(w)
    ensures Walk(w, from, Spelled(ups, names)) == Some(Place(from.volume, Landing(from.dir, ups, names)))
    decreases ups, |names|
  {
    if ups > 0 {
      WalkConcat(w, from, [ParentDir], Spelled(ups - 1, names));
      StepIn(w, from, ParentDir);
      WalkSpelled(w, Parent(from), ups - 1, names);
      assert Landing(Parent(from).dir, ups - 1, names) == Landing(from.dir, ups, names);
    } else if |names| > 0 {
      WalkConcat(w, from, [Normal(names[0])], Spelled(0, names[1..]));
      StepIn(w, from, Normal(names[0]));
      var next := from.(dir := from.dir + [names[0]]);
      WalkSpelled(w, next, 0, names[1..]);
      assert names == [names[0]] + names[1..];
      assert Landing(next.dir, 0, names[1..]) == Landing(from.dir, 0, names);
    } else {
      assert Landing(from.dir, 0, []) == from.dir;
    }
  }

  lemma StepIn(w: World, from: Place, c: Component)
    ensures Walk(w, from, [c]) == Enter(w, from, c)
  {
    assert [c][..0] == [];
  }

  /** A name longer than every name in the list. */
  function Novel(names: seq<string>): (s: string)
    ensures s !in names && forall i :: 0 <= i < |names| ==> |names[i]| < |s|
  {
    if |names| == 0 then "x"
    else
      var s := Novel(names[1..]);
      if |names[0]| < |s| then s else names[0] + "x"
  }

  lemma LongerNeedsNovel(base: seq<string>, novel: string, x: nat, a: seq<string>, y: nat, b: seq<string>)
    requires x < y <= |base| && forall k :: 0 <= k < |base| ==> base[k] == novel
    requires base[..x] + a == base[..y] + b
    ensures novel in a
  {
    assert (base[..x] + a)[x] == (base[..y] + b)[x] == novel;
    assert a[0] == novel;
  }

  lemma SameLanding(base: seq<string>, novel: string, i: nat, a: seq<string>, j: nat, b: seq<string>)
    requires i <= |base| && j <= |base| && forall k :: 0 <= k < |base| ==> base[k] == novel
    requires novel !in a && novel !in b
    requires Landing(base, i, a) == Landing(base, j, b)
    ensures i == j && a == b
  {
    var x, y := |base| - i, |base| - j;
    if x < y {
      LongerNeedsNovel(base, novel, x, a, y, b);
    } else if y < x {
      LongerNeedsNovel(base, novel, y, b, x, a);
    } else {
      assert a == Landing(base, i, a)[x..] && b == Landing(base, j, b)[x..];
    }
  }

  /** A directory deep enough, and novel enough, to tell two normal forms apart. */
  function Probe(s: seq<Component>, t: seq<Component>): Place
  {
    Place(0, seq(Ups(s) + Ups(t), _ => Novel(Names(s) + Names(t))))
  }

  lemma ProbeDistinguishes(w: World, s: seq<Component>, t: seq<Component>)
    requires Full(w) && Relative(s) && Relative(t) && NormalForm(s) && NormalForm(t)
    requires Walk(w, Probe(s, t), s) == Walk(w, Probe(s, t), t)
    ensures s == t
  {
    NormalFormSpelled(s);
    NormalFormSpelled(t);
    var i, x, j, y := Ups(s), Names(s), Ups(t), Names(t);
    var novel, base := Novel(x + y), Probe(s, t);
    WalkSpelled(w, base, i, x);
    WalkSpelled(w, base, j, y);
    assert forall n :: n in x || n in y ==> n in x + y;
    SameLanding(base.dir, novel, i, x, j, y);
  }

  ghost predicate SameMeaning(w: World, a: seq<Component>, b: seq<Component>)
  {
    forall p :: Walk(w, p, a) == Walk(w, p, b)
  }

  lemma NormalizedMeaning(w: World, p: Place, a: seq<Component>)
    requires Full(w)
    ensures Walk(w, p, a) == Walk(w, p, Normalized(a))
  {
    WalkTotal(w, p, a);
    NormalizePreservesMeaning(w, p, a);
  }

  lemma SameFormSameMeaning(w: World, a: seq<Component>, b: seq<Component>)
    requires Full(w) && Normalized(a) == Normalized(b)
    ensures SameMeaning(w, a, b)
  {
    forall p ensures Walk(w, p, a) == Walk(w, p, b) {
      NormalizedMeaning(w, p, a);
      NormalizedMeaning(w, p, b);
    }
  }

  lemma SameMeaningSameForm(w: World, a: seq<Component>, b: seq<Component>)
    requires Full(w) && Relative(a) && Relative(b) && SameMeaning(w, a, b)
    ensures Normalized(a) == Normalized(b)
  {
    var s, t := Normalized(a), Normalized(b);
    var p := Probe(s, t);
    NormalizedMeaning(w, p, a);
    NormalizedMeaning(w, p, b);
    NormalizedForm(a);
    NormalizedForm(b);
    NormalizedRelative(a);
    NormalizedRelative(b);
    ProbeDistinguishes(w, s, t);
  }

  /** On relative paths normalization decides equality of meaning: two paths
      lead to the same place from every directory exactly when they normalize
      to the same components. */
  lemma NormalFormCanonical(w: World, a: seq<Component>, b: seq<Component>)
    requires Full(w) && Relative(a) && Relative(b)
    ensures Normalized(a) == Normalized(b) <==> SameMeaning(w, a, b)
  {
    if Normalized(a) == Normalized(b) { SameFormSameMeaning(w, a, b); }
    if SameMeaning(w, a, b) { SameMeaningSameForm(w, a, b); }
  }
}
