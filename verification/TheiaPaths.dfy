/** How the Theia export and import scripts map paths between the root and its backup. */
module TheiaPaths {
  import opened Paths

  /** `mirror_path`: where `src` is kept in the backup. The import script has the same. */
  function MirrorPath(root: string, backup: string, src: string): (r: string)
    requires IsAbsolute(root) && IsAbsolute(backup) && IsAbsolute(src)
    ensures IsAbsolute(r)
  {
    RelpathIsRelative(src, root);
    JoinAbsolute(backup, Relpath(src, root));
    Abspath(JoinPath(backup, Relpath(src, root)))
  }

  /** `dst_path`: where a file of the backup goes. */
  function DstPath(root: string, backup: string, src: string): (r: string)
    requires IsAbsolute(root) && IsAbsolute(backup) && IsAbsolute(src)
    ensures IsAbsolute(r)
  {
    RelpathIsRelative(src, backup);
    JoinAbsolute(root, Relpath(src, backup));
    Abspath(JoinPath(root, Relpath(src, backup)))
  }

  lemma RelpathIsRelative(path: string, start: string)
    requires IsAbsolute(path) && IsAbsolute(start)
    ensures Relpath(path, start) != "" && Relpath(path, start)[0] != '/'
  {
    NamesAreNames(path);
    RelpathMeans(path, start);
    var i := CommonPrefix(Names(start), Names(path));
    SplitRelativeText(|Names(start)| - i, Names(path)[i..]);
  }

  /** Both maps, on the names of paths: from below `from` to below `to`. */
  function Move<T(==)>(from: seq<T>, to: seq<T>, p: seq<T>): seq<T> {
    var i := CommonPrefix(from, p);
    Resolve(to, |from| - i, p[i..])
  }

  lemma DstIsMirror(from: string, to: string, p: string)
    requires IsAbsolute(from) && IsAbsolute(to) && IsAbsolute(p)
    ensures DstPath(to, from, p) == MirrorPath(from, to, p)
  {
  }

  lemma MirrorNames(from: string, to: string, p: string)
    requires IsAbsolute(from) && IsAbsolute(to) && IsAbsolute(p) && IsAbsolute(JoinPath(to, Relpath(p, from)))
    ensures Names(MirrorPath(from, to, p)) == Names(JoinPath(to, Relpath(p, from)))
  {
  }

  lemma JoinRelative(to: string, text: string, ups: nat, down: seq<string>)
    requires IsAbsolute(to) && AllNames(down) && text == RelativeText(ups, down)
    ensures Names(JoinPath(to, text)) == Resolve(Names(to), ups, down) && IsAbsolute(JoinPath(to, text))
  {
    JoinMeans(to, ups, down);
  }

  lemma RelativeMove(from: string, to: string, p: string)
    requires IsAbsolute(from) && IsAbsolute(to) && IsAbsolute(p)
    ensures Names(JoinPath(to, Relpath(p, from))) == Move(Names(from), Names(to), Names(p))
    ensures IsAbsolute(JoinPath(to, Relpath(p, from)))
  {
    var i := CommonPrefix(Names(from), Names(p));
    var ups, down := |Names(from)| - i, Names(p)[i..];
    assert AllNames(down) by { NamesAreNames(p); }
    assert Relpath(p, from) == RelativeText(ups, down) by { RelpathMeans(p, from); }
    JoinRelative(to, Relpath(p, from), ups, down);
  }

  lemma MoveMeans(from: string, to: string, p: string)
    requires IsAbsolute(from) && IsAbsolute(to) && IsAbsolute(p)
    ensures Names(MirrorPath(from, to, p)) == Move(Names(from), Names(to), Names(p))
    ensures Names(DstPath(to, from, p)) == Move(Names(from), Names(to), Names(p))
  {
    RelativeMove(from, to, p);
    MirrorNames(from, to, p);
    DstIsMirror(from, to, p);
  }

  /** The path is below `from`, or it leaves `from` by no more names than `to` has and its
      next name is not the one that `to` has there. */
  predicate ComesBack<T(==)>(from: seq<T>, to: seq<T>, p: seq<T>) {
    var i := CommonPrefix(from, p);
    var ups := |from| - i;
    ups == 0 || (ups <= |to| && (i == |p| || p[i] != to[|to| - ups]))
  }

  lemma MoveComesBack<T>(from: seq<T>, to: seq<T>, p: seq<T>)
    requires ComesBack(from, to, p)
    ensures Move(to, from, Move(from, to, p)) == p
  {
    var i := CommonPrefix(from, p);
    var k := |to| - (|from| - i);
    var m := Move(from, to, p);
    assert m == to[..k] + p[i..];
    CommonPrefixIs(to, m, k);
    assert m[k..] == p[i..];
    assert p == p[..i] + p[i..];
  }

  /** The name after the common prefix is taken for one of `to`, and not restored. */
  lemma MoveGoesAstray<T>(from: seq<T>, to: seq<T>, p: seq<T>)
    requires !ComesBack(from, to, p) && |from| - CommonPrefix(from, p) <= |to|
    ensures Move(to, from, Move(from, to, p)) != p
  {
    var i := CommonPrefix(from, p);
    var k := |to| - (|from| - i);
    var m := Move(from, to, p);
    assert m == to[..k] + p[i..];
    assert m[k] == p[i] == to[k];
    assert from[i] != p[i];
    assert Move(to, from, m)[i] == from[i];
  }

  /** Going up stopped at the root of the file system. */
  lemma MoveIsClamped<T>(from: seq<T>, to: seq<T>, p: seq<T>)
    requires |from| - CommonPrefix(from, p) > |to|
    ensures Move(to, from, Move(from, to, p)) != p
  {
    var m := Move(from, to, p);
    assert m == p[CommonPrefix(from, p)..];
    var j := CommonPrefix(to, m);
    assert |Move(to, from, m)| == |from| - (|to| - j) + |m| - j;
  }

  lemma MoveBack<T>(from: seq<T>, to: seq<T>, p: seq<T>)
    ensures Move(to, from, Move(from, to, p)) == p <==> ComesBack(from, to, p)
  {
    if ComesBack(from, to, p) {
      MoveComesBack(from, to, p);
    } else if |from| - CommonPrefix(from, p) <= |to| {
      MoveGoesAstray(from, to, p);
    } else {
      MoveIsClamped(from, to, p);
    }
  }

  /** A path comes back from the backup to its own place if and only if its names say so; every
      path below the root does. */
  lemma RoundTrip(root: string, backup: string, src: string)
    requires IsAbsolute(root) && IsAbsolute(backup) && IsAbsolute(src)
    ensures DstPath(root, backup, MirrorPath(root, backup, src)) == Abspath(src)
       <==> ComesBack(Names(root), Names(backup), Names(src))
    ensures Names(root) <= Names(src) ==> ComesBack(Names(root), Names(backup), Names(src))
  {
    var mirror := MirrorPath(root, backup, src);
    MoveMeans(root, backup, src);
    MoveMeans(backup, root, mirror);
    MoveBack(Names(root), Names(backup), Names(src));
    var dst := DstPath(root, backup, mirror);
    NamesAreNames(src);
    NamesAreNames(dst);
    assert dst == Render(Names(dst)) by { DstIsNormal(root, backup, mirror); }
    if Names(root) <= Names(src) {
      CommonPrefixIs(Names(root), Names(src), |Names(root)|);
    }
  }

  lemma DstIsNormal(root: string, backup: string, src: string)
    requires IsAbsolute(root) && IsAbsolute(backup) && IsAbsolute(src)
    ensures DstPath(root, backup, src) == Render(Names(DstPath(root, backup, src)))
    ensures MirrorPath(root, backup, src) == Render(Names(MirrorPath(root, backup, src)))
  {
  }

  /** No two paths that come back, in particular no two below the root, share a place in the
      backup, and what is below the root is kept below the backup. */
  lemma MirrorInjective(root: string, backup: string, a: string, b: string)
    requires IsAbsolute(root) && IsAbsolute(backup) && IsAbsolute(a) && IsAbsolute(b)
    requires ComesBack(Names(root), Names(backup), Names(a)) && ComesBack(Names(root), Names(backup), Names(b))
    requires MirrorPath(root, backup, a) == MirrorPath(root, backup, b)
    ensures Abspath(a) == Abspath(b)
  {
    RoundTrip(root, backup, a);
    RoundTrip(root, backup, b);
  }

  lemma MirrorStaysInBackup(root: string, backup: string, src: string)
    requires IsAbsolute(root) && IsAbsolute(backup) && IsAbsolute(src)
    requires Names(root) <= Names(src)
    ensures Names(MirrorPath(root, backup, src)) == Names(backup) + Names(src)[|Names(root)|..]
  {
    MoveMeans(root, backup, src);
    MoveDown(Names(root), Names(backup), Names(src));
  }

  lemma MoveDown<T>(from: seq<T>, to: seq<T>, p: seq<T>)
    requires from <= p
    ensures Move(from, to, p) == to + p[|from|..]
  {
    WholePrefix(from, p);
  }
}
