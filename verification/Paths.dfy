/**
 `posixpath` on absolute paths with one leading slash: `abspath`, `relpath` and `join` as the
 library computes them on strings, and what they mean on the names a path goes through.
 */
module Paths {
  import opened Text

  // --- posixpath ---

  predicate IsAbsolute(s: string) { s != "" && s[0] == '/' && (|s| == 1 || s[1] != '/') }

  /** The loop of `normpath` over the components of an absolute path. */
  function Normalise(done: seq<string>, comps: seq<string>): seq<string>
    decreases |comps|
  {
    if comps == [] then done
    else if comps[0] == "" || comps[0] == "." then Normalise(done, comps[1..])
    else if comps[0] != ".." then Normalise(done + [comps[0]], comps[1..])
    else if done != [] then Normalise(done[..|done| - 1], comps[1..])
    else Normalise(done, comps[1..])
  }

  /** The names that an absolute path goes through. */
  function Names(s: string): seq<string> { Normalise([], Split(s, '/')) }

  function Render(names: seq<string>): string { "/" + Join(names, "/") }

  /** `os.path.abspath` */
  function Abspath(s: string): (r: string)
    requires IsAbsolute(s)
    ensures IsAbsolute(r) && Names(r) == Names(s)
  {
    NamesAreNames(s);
    NamesOfRender(Names(s));
    Render(Names(s))
  }

  /** `[x for x in s.split('/') if x]` */
  function NonEmpty(comps: seq<string>): seq<string> {
    if comps == [] then []
    else (if comps[0] == "" then [] else [comps[0]]) + NonEmpty(comps[1..])
  }

  function CommonPrefix<T(==)>(a: seq<T>, b: seq<T>): (n: nat)
    ensures n <= |a| && n <= |b| && a[..n] == b[..n]
    ensures n < |a| && n < |b| ==> a[n] != b[n]
  {
    if a == [] || b == [] || a[0] != b[0] then 0
    else
      assert a == [a[0]] + a[1..] && b == [b[0]] + b[1..];
      1 + CommonPrefix(a[1..], b[1..])
  }

  lemma CommonPrefixIs<T>(a: seq<T>, b: seq<T>, n: nat)
    requires n <= |a| && n <= |b| && a[..n] == b[..n]
    requires n == |a| || n == |b| || a[n] != b[n]
    ensures CommonPrefix(a, b) == n
  {
  }

  lemma WholePrefix<T>(a: seq<T>, b: seq<T>)
    ensures CommonPrefix(a, b) == |a| <==> a <= b
  {
    if a <= b { CommonPrefixIs(a, b, |a|); }
    assert a[..|a|] == a;
  }

  function Ups(n: nat): seq<string> { seq(n, _ => "..") }

  function RelativeText(ups: nat, down: seq<string>): string {
    if ups == 0 && down == [] then "." else Join(Ups(ups) + down, "/")
  }

  /** `os.path.relpath(path, start=start)` */
  function Relpath(path: string, start: string): string
    requires IsAbsolute(path) && IsAbsolute(start)
  {
    var startList := NonEmpty(Split(Abspath(start), '/'));
    var pathList := NonEmpty(Split(Abspath(path), '/'));
    var i := CommonPrefix(startList, pathList);
    RelativeText(|startList| - i, pathList[i..])
  }

  /** `os.path.join(a, b)` */
  function JoinPath(a: string, b: string): string {
    if b != "" && b[0] == '/' then b
    else if a == "" || a[|a| - 1] == '/' then a + b
    else a + "/" + b
  }

  // --- What they mean ---

  /** A name of a directory entry. */
  predicate IsName(s: string) { s != "" && s != "." && s != ".." && '/' !in s }

  predicate AllNames(names: seq<string>) { forall i | 0 <= i < |names| :: IsName(names[i]) }

  lemma {:induction false} NormaliseGivesNames(done: seq<string>, comps: seq<string>)
    requires AllNames(done) && forall i | 0 <= i < |comps| :: '/' !in comps[i]
    ensures AllNames(Normalise(done, comps))
    decreases |comps|
  {
    if comps != [] {
      var rest := comps[1..];
      if comps[0] == "" || comps[0] == "." {
        NormaliseGivesNames(done, rest);
      } else if comps[0] != ".." {
        NormaliseGivesNames(done + [comps[0]], rest);
      } else if done != [] {
        NormaliseGivesNames(done[..|done| - 1], rest);
      } else {
        NormaliseGivesNames(done, rest);
      }
    }
  }

  lemma NamesAreNames(s: string)
    ensures AllNames(Names(s))
  {
    SplitHasNoSeparator(s, '/');
    NormaliseGivesNames([], Split(s, '/'));
  }

  lemma {:induction false} NormaliseConcat(done: seq<string>, a: seq<string>, b: seq<string>)
    ensures Normalise(done, a + b) == Normalise(Normalise(done, a), b)
    decreases |a|
  {
    if a == [] {
      assert a + b == b;
    } else {
      assert (a + b)[1..] == a[1..] + b;
      if a[0] == "" || a[0] == "." {
        NormaliseConcat(done, a[1..], b);
      } else if a[0] != ".." {
        NormaliseConcat(done + [a[0]], a[1..], b);
      } else if done != [] {
        NormaliseConcat(done[..|done| - 1], a[1..], b);
      } else {
        NormaliseConcat(done, a[1..], b);
      }
    }
  }

  lemma {:induction false} NormaliseNames(done: seq<string>, names: seq<string>)
    requires AllNames(names)
    ensures Normalise(done, names) == done + names
    decreases |names|
  {
    if names != [] {
      NormaliseNames(done + [names[0]], names[1..]);
      assert done + [names[0]] + names[1..] == done + names;
    } else {
      assert done + names == done;
    }
  }

  function Min(a: nat, b: nat): nat { if a < b then a else b }

  lemma {:induction false} NormaliseUps(done: seq<string>, ups: nat)
    ensures Normalise(done, Ups(ups)) == done[..|done| - Min(ups, |done|)]
    decreases ups
  {
    if ups > 0 {
      assert Ups(ups)[1..] == Ups(ups - 1);
      if done != [] {
        NormaliseUps(done[..|done| - 1], ups - 1);
      } else {
        NormaliseUps(done, ups - 1);
      }
    }
  }

  lemma NamesOfRender(names: seq<string>)
    requires AllNames(names)
    ensures Names(Render(names)) == names && IsAbsolute(Render(names))
  {
    var text := Join(names, "/");
    assert Render(names) == "" + ['/'] + text;
    SplitConcat("", text, '/');
    NormaliseConcat([], [""], Split(text, '/'));
    if names == [] {
      assert Split(text, '/') == [""];
    } else {
      assert forall p | p in names :: '/' !in p;
      SplitJoin(names, '/');
      NormaliseNames([], names);
      assert Split("", '/') == [""];
      assert names[0] != "" && names[0][0] != '/' && text[0] == names[0][0];
    }
  }

  lemma {:induction false} NonEmptyOfNames(names: seq<string>)
    requires AllNames(names)
    ensures NonEmpty(names) == names
  {
    if names != [] { NonEmptyOfNames(names[1..]); }
  }

  lemma RenderPieces(names: seq<string>)
    requires AllNames(names)
    ensures NonEmpty(Split(Render(names), '/')) == names
  {
    var text := Join(names, "/");
    assert Render(names) == "" + ['/'] + text;
    SplitConcat("", text, '/');
    assert Split("", '/') == [""];
    assert ([""] + Split(text, '/'))[1..] == Split(text, '/') && [""][1..] == [];
    if names != [] {
      assert forall p | p in names :: '/' !in p;
      SplitJoin(names, '/');
      NonEmptyOfNames(names);
    }
  }

  /** `relpath` in terms of names. */
  lemma RelpathMeans(path: string, start: string)
    requires IsAbsolute(path) && IsAbsolute(start)
    ensures var i := CommonPrefix(Names(start), Names(path));
            Relpath(path, start) == RelativeText(|Names(start)| - i, Names(path)[i..])
  {
    NamesAreNames(path);
    NamesAreNames(start);
    RenderPieces(Names(path));
    RenderPieces(Names(start));
  }

  /** Going up and down from a directory; going above the root stays there. */
  function Resolve<T>(base: seq<T>, ups: nat, down: seq<T>): seq<T> {
    base[..|base| - Min(ups, |base|)] + down
  }

  lemma SplitRelativeText(ups: nat, down: seq<string>)
    requires AllNames(down)
    ensures RelativeText(ups, down) != "" && RelativeText(ups, down)[0] != '/'
    ensures Split(RelativeText(ups, down), '/') == if ups == 0 && down == [] then ["."] else Ups(ups) + down
  {
    var parts := Ups(ups) + down;
    if parts == [] {
      SplitAtFirst(".", "", '/');
    } else {
      assert '/' !in "..";
      assert forall i | 0 <= i < |parts| :: '/' !in parts[i] && parts[i] != "";
      SplitJoin(parts, '/');
      var text := Join(parts, "/");
      assert text[0] == parts[0][0];
    }
  }

  lemma NamesOfDirectory(front: string)
    ensures Names(front + "/") == Names(front)
  {
    assert front + "/" == front + ['/'] + "";
    SplitConcat(front, "", '/');
    NormaliseConcat([], Split(front, '/'), [""]);
    NormaliseEmpty(Names(front));
  }

  lemma NamesBelow(front: string, rel: string)
    ensures Names(front + ['/'] + rel) == Normalise(Names(front), Split(rel, '/'))
  {
    SplitConcat(front, rel, '/');
    NormaliseConcat([], Split(front, '/'), Split(rel, '/'));
  }

  /** Joining lists the components of both paths, but for empty ones. */
  lemma JoinPieces(base: string, rel: string)
    requires IsAbsolute(base) && rel != "" && rel[0] != '/'
    ensures Names(JoinPath(base, rel)) == Normalise(Names(base), Split(rel, '/'))
  {
    var front := if base[|base| - 1] == '/' then base[..|base| - 1] else base;
    assert JoinPath(base, rel) == front + ['/'] + rel;
    NamesBelow(front, rel);
    if base[|base| - 1] == '/' {
      assert base == front + "/";
      NamesOfDirectory(front);
    }
  }

  lemma NormaliseEmpty(done: seq<string>)
    ensures Normalise(done, [""]) == done && Normalise(done, ["."]) == done
  {
    assert [""][1..] == [] && ["."][1..] == [];
  }

  lemma JoinAbsolute(base: string, rel: string)
    requires IsAbsolute(base) && rel != "" && rel[0] != '/'
    ensures IsAbsolute(JoinPath(base, rel))
  {
  }

  /** `join` of an absolute path and a relative one, in terms of names. */
  lemma JoinMeans(base: string, ups: nat, down: seq<string>)
    requires IsAbsolute(base) && AllNames(down)
    ensures Names(JoinPath(base, RelativeText(ups, down))) == Resolve(Names(base), ups, down)
    ensures IsAbsolute(JoinPath(base, RelativeText(ups, down)))
  {
    SplitRelativeText(ups, down);
    JoinPieces(base, RelativeText(ups, down));
    JoinAbsolute(base, RelativeText(ups, down));
    var names := Names(base);
    NormaliseEmpty(names);
    NormaliseConcat(names, Ups(ups), down);
    NormaliseUps(names, ups);
    NormaliseNames(names[..|names| - Min(ups, |names|)], down);
    if ups == 0 && down == [] {
      assert Resolve(names, ups, down) == names;
    }
  }

  /** The names of a path, one component at a time from its end: an empty component and a dot
      stay in the directory, two dots leave it unless it is the root, any other one enters it. */
  lemma NamesExactly(front: string, last: string)
    requires '/' !in last
    ensures Names("") == []
    ensures last == "" || last == "." ==> Names(front + "/" + last) == Names(front)
    ensures last == ".." && Names(front) == [] ==> Names(front + "/" + last) == []
    ensures last == ".." ==> forall up: seq<string>, name |
      Names(front) == up + [name] :: Names(front + "/" + last) == up
    ensures last != "" && last != "." && last != ".." ==> Names(front + "/" + last) == Names(front) + [last]
  {
    NormaliseEmpty([]);
    NamesBelow(front, last);
    assert front + ['/'] + last == front + "/" + last;
    SplitAtFirst(last, "", '/');
    assert [last][1..] == [];
    forall up: seq<string>, name | Names(front) == up + [name] ensures Names(front)[..|Names(front)| - 1] == up {
      assert (up + [name])[..|up|] == up;
    }
  }

  /** `abspath` is the path with its names, each after one slash; the root is a slash alone. */
  lemma AbspathExactly(s: string)
    requires IsAbsolute(s)
    ensures Split(Abspath(s), '/') == [""] + if Names(s) == [] then [""] else Names(s)
  {
    var names := Names(s);
    NamesAreNames(s);
    var text := Join(names, "/");
    assert Abspath(s) == "" + ['/'] + text;
    SplitConcat("", text, '/');
    SplitAtFirst("", "", '/');
    if names != [] {
      assert forall p | p in names :: '/' !in p;
      SplitJoin(names, '/');
    }
  }

  /** The components of `relpath`, for the first `n` names that both have and no more: two dots for
      each other name of the start, and then the rest of the names of the path; a dot alone for the
      directory itself. */
  lemma RelpathExactly(path: string, start: string, n: nat)
    requires IsAbsolute(path) && IsAbsolute(start)
    requires n <= |Names(path)| && n <= |Names(start)| && Names(path)[..n] == Names(start)[..n]
    requires n < |Names(path)| && n < |Names(start)| ==> Names(path)[n] != Names(start)[n]
    ensures Split(Relpath(path, start), '/') ==
      if Names(path) == Names(start) then ["."]
      else seq(|Names(start)| - n, _ => "..") + Names(path)[n..]
  {
    RelpathMeans(path, start);
    NamesAreNames(path);
    CommonPrefixIs(Names(start), Names(path), n);
    SameExactly(Names(path), Names(start), n);
    PiecesOfRelative(Names(path), Names(start), n);
    assert Ups(|Names(start)| - n) == seq(|Names(start)| - n, _ => "..");
  }

  lemma PiecesOfRelative(names: seq<string>, base: seq<string>, n: nat)
    requires n <= |base| && n <= |names| && AllNames(names[n..])
    requires names == base <==> |base| - n == 0 && names[n..] == []
    ensures Split(RelativeText(|base| - n, names[n..]), '/') ==
      if names == base then ["."] else Ups(|base| - n) + names[n..]
  {
    SplitRelativeText(|base| - n, names[n..]);
  }

  lemma SameExactly<T>(a: seq<T>, b: seq<T>, n: nat)
    requires n <= |a| && n <= |b| && a[..n] == b[..n]
    requires n < |a| && n < |b| ==> a[n] != b[n]
    ensures a == b <==> |b| - n == 0 && a[n..] == []
  {
    assert a[..|a|] == a && b[..|b|] == b;
  }

  // --- issubpathof ---

  function StartsWith(s: string, prefix: string): bool { prefix <= s }

  /** `issubpathof` of the simple HTTP server recipe; the same test selects the walk in
      `hashwalk` of the Theia scripts. */
  predicate IsSubpathOf(subpath: string, path: string)
    requires IsAbsolute(subpath) && IsAbsolute(path)
  {
    !StartsWith(Relpath(Abspath(subpath), Abspath(path)), "..")
  }

  lemma TwoDots(s: string)
    ensures StartsWith(s, "..") <==> |s| >= 2 && s[0] == '.' && s[1] == '.'
  {
    if |s| >= 2 && s[0] == '.' && s[1] == '.' { assert s[..2] == ".."; }
  }

  lemma RelativeTextStarts(ups: nat, down: seq<string>)
    requires AllNames(down)
    ensures StartsWith(RelativeText(ups, down), "..") <==> ups > 0 || (down != [] && StartsWith(down[0], ".."))
  {
    var parts := Ups(ups) + down;
    if parts != [] {
      var text := Join(parts, "/");
      assert |parts| == 1 || text == parts[0] + "/" + Join(parts[1..], "/");
      assert parts[0] == if ups > 0 then ".." else down[0];
      TwoDots(text);
      TwoDots(parts[0]);
      if |parts[0]| == 1 {
        assert |parts| > 1 ==> text[1] == '/';
      } else {
        assert text[0] == parts[0][0] && text[1] == parts[0][1];
      }
    }
  }

  /** A path is taken to be inside a directory exactly when it goes through all names of the
      directory and its next name does not start with two dots. */
  lemma SubpathMeans(subpath: string, path: string)
    requires IsAbsolute(subpath) && IsAbsolute(path)
    ensures IsSubpathOf(subpath, path) <==>
      Names(path) <= Names(subpath)
      && (Names(path) == Names(subpath) || !StartsWith(Names(subpath)[|Names(path)|], ".."))
  {
    var names, base := Names(subpath), Names(path);
    var i := CommonPrefix(base, names);
    assert AllNames(names) by { NamesAreNames(subpath); }
    assert Relpath(Abspath(subpath), Abspath(path)) == RelativeText(|base| - i, names[i..]) by {
      RelpathMeans(Abspath(subpath), Abspath(path));
    }
    SubpathByNames(names, base);
  }

  lemma SubpathByNames(names: seq<string>, base: seq<string>)
    requires AllNames(names)
    ensures var i := CommonPrefix(base, names);
      !StartsWith(RelativeText(|base| - i, names[i..]), "..")
      <==> base <= names && (base == names || !StartsWith(names[|base|], ".."))
  {
    var i := CommonPrefix(base, names);
    RelativeTextStarts(|base| - i, names[i..]);
    WholePrefix(base, names);
  }
}
