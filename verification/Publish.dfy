/**
 The publish recipe: the sections it gathers by following `-extends`, and the dictionary it
 publishes. N stands for section names, K for option names and V for values.
 */
module Publish {
  import opened Common

  /** `extends` is the set of names in `-extends`; `publish` the list in `-publish`, if any. */
  datatype Section<N, K, V> = Section(extends_: set<N>, publish: Option<seq<K>>, options: map<K, V>)

  type Buildout<!N(==), !K(==), V> = map<N, Section<N, K, V>>

  // --- The closure of -extends ---

  /** A way from the first name to the last along `-extends`. */
  ghost predicate IsPath<N(!new), K, V>(b: Buildout<N, K, V>, path: seq<N>) {
    path != [] && forall i | 0 <= i < |path| - 1 :: path[i] in b && path[i + 1] in b[path[i]].extends_
  }

  ghost predicate Reaches<N(!new), K, V>(b: Buildout<N, K, V>, start: N, x: N) {
    exists path :: IsPath(b, path) && path[0] == start && path[|path| - 1] == x
  }

  lemma ReachesSelf<N(!new), K, V>(b: Buildout<N, K, V>, start: N)
    ensures Reaches(b, start, start)
  {
    assert IsPath(b, [start]);
    assert [start][0] == start;
  }

  lemma ReachesNext<N(!new), K, V>(b: Buildout<N, K, V>, start: N, x: N, y: N)
    requires Reaches(b, start, x) && x in b && y in b[x].extends_
    ensures Reaches(b, start, y)
  {
    var path :| IsPath(b, path) && path[0] == start && path[|path| - 1] == x;
    assert IsPath(b, path + [y]);
    assert (path + [y])[0] == start && (path + [y])[|path + [y]| - 1] == y;
  }

  ghost predicate IsClosed<N(!new), K, V>(b: Buildout<N, K, V>, s: set<N>) {
    forall x, y | x in s && x in b && y in b[x].extends_ :: y in s
  }

  lemma {:induction false} PathStaysInside<N(!new), K, V>(b: Buildout<N, K, V>, s: set<N>, path: seq<N>)
    requires IsClosed(b, s) && IsPath(b, path) && path[0] in s
    ensures path[|path| - 1] in s
    decreases |path|
  {
    if |path| > 1 {
      assert path[1] in b[path[0]].extends_;
      var tail := path[1..];
      assert forall i | 0 <= i < |tail| :: tail[i] == path[i + 1];
      PathStaysInside(b, s, tail);
    }
  }

  lemma ClosedHasReachable<N(!new), K, V>(b: Buildout<N, K, V>, s: set<N>, start: N)
    requires IsClosed(b, s) && start in s
    ensures forall x | Reaches(b, start, x) :: x in s
  {
    forall x | Reaches(b, start, x) ensures x in s {
      var path :| IsPath(b, path) && path[0] == start && path[|path| - 1] == x;
      PathStaysInside(b, s, path);
    }
  }

  /** The list has these elements, each once. */
  ghost predicate Lists<N(!new)>(r: seq<N>, s: set<N>) {
    (forall x :: x in r <==> x in s) && (forall i, j | 0 <= i < j < |r| :: r[i] != r[j]) && |r| == |s|
  }

  lemma ListsOneMore<N(!new)>(r: seq<N>, s: set<N>, x: N)
    requires Lists(r, s) && x !in s
    ensures Lists(r + [x], s + {x})
  {
    var more := r + [x];
    forall i, j | 0 <= i < j < |more| ensures more[i] != more[j] {
      assert more[i] == r[i] && r[i] in r;
      if j < |r| { assert more[j] == r[j]; }
    }
  }

  /** `list(s)`, in any order. */
  method ListOf<N(==, !new)>(s: set<N>) returns (r: seq<N>)
    ensures forall x :: x in r <==> x in s
    ensures forall i, j | 0 <= i < j < |r| :: r[i] != r[j]
    ensures |r| == |s|
  {
    r := [];
    var left := s;
    while left != {}
      invariant left <= s && Lists(r, s - left)
      decreases left
    {
      var x :| x in left;
      ListsOneMore(r, s - left, x);
      assert (s - left) + {x} == s - (left - {x});
      r := r + [x];
      left := left - {x};
    }
    assert s - left == s;
  }

  /** A name that is done has each of its names done, or on the stack above it. */
  ghost predicate PushedAbove<N(!new), K, V>(b: Buildout<N, K, V>, done: set<N>, stack: seq<N>) {
    forall i, y | 0 <= i < |stack| && stack[i] in done && stack[i] in b && y in b[stack[i]].extends_ ::
      y in done || y in stack[i + 1..]
  }

  /** One turn of the worklist keeps `PushedAbove`. */
  lemma PopKeepsPushedAbove<N(!new), K, V>(b: Buildout<N, K, V>, done: set<N>, stack: seq<N>, more: seq<N>)
    requires stack != [] && PushedAbove(b, done, stack)
    requires var name := stack[|stack| - 1];
      name in b && forall y :: y in more <==> y in b[name].extends_ - (done + {name})
    ensures PushedAbove(b, done + {stack[|stack| - 1]}, stack[..|stack| - 1] + more)
  {
    var name, front := stack[|stack| - 1], stack[..|stack| - 1];
    var stack', done' := front + more, done + {name};
    forall i | |front| <= i < |stack'| ensures stack'[i] !in done' {
      assert stack'[i] == more[i - |front|] && more[i - |front|] in more;
    }
    forall i, y | 0 <= i < |stack'| && stack'[i] in done' && stack'[i] in b && y in b[stack'[i]].extends_
      ensures y in done' || y in stack'[i + 1..]
    {
      if i < |front| {
        assert stack'[i + 1..] == front[i + 1..] + more;
        if stack'[i] != name && y !in done {
          assert y in stack[i + 1..];
          assert stack[i + 1..] == front[i + 1..] + [name];
        }
      }
    }
  }

  /** The worklist between two turns: everything on it is reachable, and what is done has its
      names done or on the stack. */
  ghost predicate Worklist<N(!new), K, V>(b: Buildout<N, K, V>, start: N, done: set<N>, stack: seq<N>) {
    && done <= b.Keys && (start in done || start in stack)
    && (forall x | x in done || x in stack :: Reaches(b, start, x))
    && (forall x, y | x in done && y in b[x].extends_ :: y in done || y in stack)
    && PushedAbove(b, done, stack)
  }

  lemma TurnKeepsWorklist<N(!new), K, V>(b: Buildout<N, K, V>, start: N, done: set<N>, stack: seq<N>, more: seq<N>)
    requires Worklist(b, start, done, stack) && stack != []
    requires var name := stack[|stack| - 1];
      name in b && forall y :: y in more <==> y in b[name].extends_ - (done + {name})
    ensures Worklist(b, start, done + {stack[|stack| - 1]}, stack[..|stack| - 1] + more)
  {
    var name, front := stack[|stack| - 1], stack[..|stack| - 1];
    PopKeepsPushedAbove(b, done, stack, more);
    assert name in stack;
    assert forall x | x in stack :: x == name || x in front by {
      assert stack == front + [name];
    }
    forall y | y in more ensures Reaches(b, start, y) { ReachesNext(b, start, name, y); }
  }

  /** A name that is popped a second time has nothing left to push. */
  lemma SecondPopPushesNothing<N(!new), K, V>(b: Buildout<N, K, V>, start: N, done: set<N>, stack: seq<N>)
    requires Worklist(b, start, done, stack) && stack != [] && stack[|stack| - 1] in done
    ensures b[stack[|stack| - 1]].extends_ <= done
  {
    assert stack[|stack|..] == [];
  }

  /** `Recipe.__init__`: the sections reached from `start` through `-extends`, whatever the
      order in which a set is listed and with any cycles; it fails, as buildout does for a
      missing section, exactly when one of them is missing. */
  method ExtendSet<N(==, !new), K, V>(b: Buildout<N, K, V>, start: N) returns (ok: bool, done: set<N>)
    ensures ok <==> forall x | Reaches(b, start, x) :: x in b
    ensures ok ==> forall x :: x in done <==> Reaches(b, start, x)
  {
    ok, done := true, {};
    var stack := [start];
    ReachesSelf(b, start);
    while stack != []
      invariant Worklist(b, start, done, stack)
      decreases b.Keys - done, |stack|
    {
      var name := stack[|stack| - 1];
      assert name in stack;
      if name !in b {
        ok := false;
        return;
      }
      var more := ListOf(b[name].extends_ - (done + {name}));
      TurnKeepsWorklist(b, start, done, stack, more);
      if name in done { SecondPopPushesNothing(b, start, done, stack); }
      stack := stack[..|stack| - 1] + more;
      done := done + {name};
    }
    ClosedHasReachable(b, done, start);
  }

  // --- _install ---

  /** The keys a section publishes: those of `-publish`, or all that are not hidden (`recipe`
      and what starts with a dash). */
  function PublishedKeys<N, K, V>(section: Section<N, K, V>, hidden: K -> bool): set<K> {
    match section.publish
    case Some(keys) => set k | k in keys
    case None => set k | k in section.options && !hidden(k)
  }

  /** The section publishes `k`: its `-publish` has it, or it has no `-publish` and `k` is one of its
      options that is not hidden. */
  predicate Names<N, K(==), V>(section: Section<N, K, V>, hidden: K -> bool, k: K) {
    if section.publish.Some? then k in section.publish.value else k in section.options && !hidden(k)
  }

  lemma NamesAre<N, K(!new), V>(section: Section<N, K, V>, hidden: K -> bool)
    ensures forall k :: k in PublishedKeys(section, hidden) <==> Names(section, hidden, k)
    ensures HasItsKeys(section, hidden) <==> forall k | Names(section, hidden, k) :: k in section.options
  {
  }

  predicate HasItsKeys<N, K(==), V>(section: Section<N, K, V>, hidden: K -> bool) {
    forall k | k in PublishedKeys(section, hidden) :: k in section.options
  }

  /** The entries of one section. */
  function Entries<N, K, V>(section: Section<N, K, V>, hidden: K -> bool): map<K, V> {
    map k | k in PublishedKeys(section, hidden) && k in section.options :: section.options[k]
  }

  /** The dictionary when sections are visited in this order. */
  function PublishAll<N, K, V>(b: Buildout<N, K, V>, order: seq<N>, hidden: K -> bool): map<K, V>
    requires forall n | n in order :: n in b
  {
    if order == [] then map[]
    else PublishAll(b, order[..|order| - 1], hidden) + Entries(b[order[|order| - 1]], hidden)
  }

  ghost predicate IsOrder<N(!new)>(order: seq<N>, names: set<N>) {
    (forall x :: x in order <==> x in names) && forall i, j | 0 <= i < j < |order| :: order[i] != order[j]
  }

  /** The loop over the keys of one section; a key without option is a KeyError. */
  method PublishSection<N, K(==, !new), V>(section: Section<N, K, V>, keys: seq<K>, before: map<K, V>)
    returns (ok: bool, dict: map<K, V>)
    ensures ok <==> forall k | k in keys :: k in section.options
    ensures ok ==> dict == before + map k | k in keys && k in section.options :: section.options[k]
  {
    ok, dict := true, before;
    for i := 0 to |keys|
      invariant forall k | k in keys[..i] :: k in section.options
      invariant dict == before + map k | k in keys[..i] && k in section.options :: section.options[k]
    {
      assert keys[..i + 1] == keys[..i] + [keys[i]];
      if keys[i] !in section.options {
        ok := false;
        return;
      }
      dict := dict[keys[i] := section.options[keys[i]]];
    }
    assert keys[..|keys|] == keys;
  }

  lemma EntriesAre<N, K(!new), V>(section: Section<N, K, V>, keys: seq<K>, hidden: K -> bool)
    requires PublishedKeys(section, hidden) == set k | k in keys
    ensures Entries(section, hidden) == map k | k in keys && k in section.options :: section.options[k]
    ensures HasItsKeys(section, hidden) <==> forall k | k in keys :: k in section.options
  {
  }

  /** `_install`: the dictionary to publish, from the sections of `names` in any order. */
  method Install<N(==, !new), K(==, !new), V(!new)>(b: Buildout<N, K, V>, names: set<N>, hidden: K -> bool)
    returns (ok: bool, dict: map<K, V>, ghost order: seq<N>)
    requires names <= b.Keys
    ensures ok <==> forall n, k | n in names && Names(b[n], hidden, k) :: k in b[n].options
    ensures ok ==> IsOrder(order, names) && dict == PublishAll(b, order, hidden)
    ensures ok ==> forall k :: k in dict <==> exists n :: n in names && Names(b[n], hidden, k)
    ensures ok ==> forall k | k in dict :: exists n ::
              n in names && Names(b[n], hidden, k) && k in b[n].options && dict[k] == b[n].options[k]
  {
    forall n | n in names
      ensures HasItsKeys(b[n], hidden) <==> forall k | Names(b[n], hidden, k) :: k in b[n].options
    {
      NamesAre(b[n], hidden);
    }
    ok, dict := true, map[];
    var listed := ListOf(names);
    order := listed;
    for i := 0 to |listed|
      invariant forall j | 0 <= j < i :: HasItsKeys(b[listed[j]], hidden)
      invariant dict == PublishAll(b, listed[..i], hidden)
    {
      var section := b[listed[i]];
      var keys;
      if section.publish.Some? {
        keys := section.publish.value;
      } else {
        keys := ListOf(set k | k in section.options && !hidden(k));
      }
      assert PublishedKeys(section, hidden) == set k | k in keys;
      ok, dict := PublishSection(section, keys, dict);
      EntriesAre(section, keys, hidden);
      if !ok {
        assert listed[i] in names && !HasItsKeys(section, hidden);
        return;
      }
      assert listed[..i + 1][..i] == listed[..i];
    }
    assert listed[..|listed|] == listed;
    PublishedIs(b, names, listed, hidden);
  }

  /** What is published, and with which values, when no section lacks one of its keys. */
  lemma PublishedIs<N(!new), K(!new), V(!new)>(b: Buildout<N, K, V>, names: set<N>, order: seq<N>, hidden: K -> bool)
    requires names <= b.Keys && IsOrder(order, names) && forall n | n in names :: HasItsKeys(b[n], hidden)
    ensures var dict := PublishAll(b, order, hidden);
      && (forall k :: k in dict <==> exists n :: n in names && Names(b[n], hidden, k))
      && forall k | k in dict :: exists n ::
           n in names && Names(b[n], hidden, k) && k in b[n].options && dict[k] == b[n].options[k]
  {
    var dict := PublishAll(b, order, hidden);
    PublishAllIs(b, order, hidden);
    forall n, k | n in names && Names(b[n], hidden, k) ensures k in dict {
      NamesAre(b[n], hidden);
      assert n in order && k in Entries(b[n], hidden);
    }
    forall k | k in dict
      ensures exists n :: n in names && Names(b[n], hidden, k) && k in b[n].options && dict[k] == b[n].options[k]
    {
      var n :| n in order && Gives(b, n, hidden, k, dict[k]);
      NamesAre(b[n], hidden);
      assert n in names && k in PublishedKeys(b[n], hidden);
    }
  }

  // --- Option names ---

  /** `k == 'recipe' or k.startswith('-')` */
  predicate IsHidden(k: string) { k == "recipe" || (k != "" && k[0] == '-') }

  /** The section publishes `k`: what is listed in `-publish`, or every option other than `recipe`
      and those that start with a dash. */
  ghost predicate PublishesName<V(!new)>(section: Section<string, string, V>, k: string) {
    match section.publish
    case Some(keys) => k in keys
    case None => k in section.options && k != "recipe" && !("-" <= k)
  }

  lemma PublishedByName<V(!new)>(b: Buildout<string, string, V>, names: set<string>, order: seq<string>, k: string)
    requires names <= b.Keys && IsOrder(order, names) && forall n | n in names :: HasItsKeys(b[n], IsHidden)
    ensures k in PublishAll(b, order, IsHidden) <==> exists n :: n in names && PublishesName(b[n], k)
  {
    PublishedIs(b, names, order, IsHidden);
    DashFirst(k);
    forall n | n in names ensures Names(b[n], IsHidden, k) <==> PublishesName(b[n], k) {}
  }

  lemma DashFirst(k: string)
    ensures "-" <= k <==> k != "" && k[0] == '-'
  {
    if k != "" && k[0] == '-' { assert k[..1] == "-"; }
    if "-" <= k { assert k[0] == "-"[0]; }
  }

  /** The section called `n` publishes `v` for `k`. */
  predicate Gives<N(==), K(==), V(==)>(b: Buildout<N, K, V>, n: N, hidden: K -> bool, k: K, v: V) {
    n in b && k in Entries(b[n], hidden) && Entries(b[n], hidden)[k] == v
  }

  /** Every key of a visited section is published, and only with a value of such a section. */
  lemma {:induction false} PublishAllIs<N(!new), K(!new), V(!new)>(b: Buildout<N, K, V>, order: seq<N>,
      hidden: K -> bool)
    requires forall n | n in order :: n in b
    ensures forall n, k | n in order && k in Entries(b[n], hidden) :: k in PublishAll(b, order, hidden)
    ensures forall k | k in PublishAll(b, order, hidden) ::
      exists n :: n in order && Gives(b, n, hidden, k, PublishAll(b, order, hidden)[k])
    decreases |order|
  {
    if order != [] {
      var front, last := order[..|order| - 1], order[|order| - 1];
      PublishAllIs(b, front, hidden);
      assert order == front + [last];
      var dict, before := PublishAll(b, order, hidden), PublishAll(b, front, hidden);
      forall k | k in dict ensures exists n :: n in order && Gives(b, n, hidden, k, dict[k]) {
        if k in Entries(b[last], hidden) {
          assert last in order && Gives(b, last, hidden, k, dict[k]);
        } else {
          var n :| n in front && Gives(b, n, hidden, k, before[k]);
          assert n in order;
        }
      }
    }
  }

  /** Two of the sections publish the same key with different values. */
  ghost predicate Conflict<N(!new), K(!new), V(!new)>(b: Buildout<N, K, V>, names: set<N>, hidden: K -> bool) {
    exists m, n, k, v, w :: m in names && n in names && Gives(b, m, hidden, k, v) && Gives(b, n, hidden, k, w) && v != w
  }

  lemma SameEntryWithoutConflict<N(!new), K(!new), V(!new)>(b: Buildout<N, K, V>, names: set<N>, hidden: K -> bool,
                                                            o1: seq<N>, o2: seq<N>, k: K)
    requires names <= b.Keys && IsOrder(o1, names) && IsOrder(o2, names) && !Conflict(b, names, hidden)
    requires k in PublishAll(b, o1, hidden)
    ensures k in PublishAll(b, o2, hidden) && PublishAll(b, o1, hidden)[k] == PublishAll(b, o2, hidden)[k]
  {
    PublishAllIs(b, o1, hidden);
    PublishAllIs(b, o2, hidden);
    var v := PublishAll(b, o1, hidden)[k];
    var m :| m in o1 && Gives(b, m, hidden, k, v);
    assert m in o2;
    var w := PublishAll(b, o2, hidden)[k];
    var n :| n in o2 && Gives(b, n, hidden, k, w);
    assert m in names && n in names;
  }

  lemma SameWithoutConflict<N(!new), K(!new), V(!new)>(b: Buildout<N, K, V>, names: set<N>, hidden: K -> bool,
                                                       o1: seq<N>, o2: seq<N>)
    requires names <= b.Keys && IsOrder(o1, names) && IsOrder(o2, names) && !Conflict(b, names, hidden)
    ensures PublishAll(b, o1, hidden) == PublishAll(b, o2, hidden)
  {
    var d1, d2 := PublishAll(b, o1, hidden), PublishAll(b, o2, hidden);
    forall k | k in d1 ensures k in d2 && d1[k] == d2[k] {
      SameEntryWithoutConflict(b, names, hidden, o1, o2, k);
    }
    forall k | k in d2 ensures k in d1 {
      SameEntryWithoutConflict(b, names, hidden, o2, o1, k);
    }
  }

  lemma OrderExists<N(!new)>(names: set<N>) returns (order: seq<N>)
    ensures IsOrder(order, names)
    decreases names
  {
    if names == {} {
      order := [];
    } else {
      var x :| x in names;
      order := OrderExists(names - {x});
      order := order + [x];
    }
  }

  lemma LastWins<N(!new), K(!new), V(!new)>(b: Buildout<N, K, V>, rest: seq<N>, m: N, n: N, hidden: K -> bool, k: K,
                                            v: V)
    requires m in b && (forall x | x in rest :: x in b) && Gives(b, n, hidden, k, v)
    ensures var dict := PublishAll(b, rest + [m, n], hidden); k in dict && dict[k] == v
  {
    var o := rest + [m, n];
    assert o[|o| - 1] == n;
  }

  lemma OrderWithTwo<N(!new)>(rest: seq<N>, names: set<N>, m: N, n: N)
    requires m in names && n in names && m != n && IsOrder(rest, names - {m, n})
    ensures IsOrder(rest + [m, n], names)
  {
    var order := rest + [m, n];
    forall x ensures x in order <==> x in names {}
    forall i, j | 0 <= i < j < |order| ensures order[i] != order[j] {
      if i < |rest| { assert rest[i] in rest; }
    }
  }

  lemma ConflictingOrders<N(!new), K(!new), V(!new)>(b: Buildout<N, K, V>, names: set<N>, hidden: K -> bool)
    returns (o1: seq<N>, o2: seq<N>)
    requires names <= b.Keys && Conflict(b, names, hidden)
    ensures IsOrder(o1, names) && IsOrder(o2, names) && PublishAll(b, o1, hidden) != PublishAll(b, o2, hidden)
  {
    var m, n, k, v, w :| m in names && n in names && Gives(b, m, hidden, k, v) && Gives(b, n, hidden, k, w) && v != w;
    var rest := OrderExists(names - {m, n});
    o1, o2 := rest + [m, n], rest + [n, m];
    OrderWithTwo(rest, names, m, n);
    OrderWithTwo(rest, names, n, m);
    LastWins(b, rest, m, n, hidden, k, w);
    LastWins(b, rest, n, m, hidden, k, v);
  }

  /** What is published does not depend on the order in which sections are visited, exactly when
      no two of them publish the same key with different values. */
  lemma OrderMattersOnlyForConflicts<N(!new), K(!new), V(!new)>(b: Buildout<N, K, V>, names: set<N>, hidden: K -> bool)
    requires names <= b.Keys
    ensures (forall o1, o2 | IsOrder(o1, names) && IsOrder(o2, names) ::
               PublishAll(b, o1, hidden) == PublishAll(b, o2, hidden))
       <==> !Conflict(b, names, hidden)
  {
    if Conflict(b, names, hidden) {
      var o1, o2 := ConflictingOrders(b, names, hidden);
    } else {
      forall o1, o2 | IsOrder(o1, names) && IsOrder(o2, names)
        ensures PublishAll(b, o1, hidden) == PublishAll(b, o2, hidden)
      {
        SameWithoutConflict(b, names, hidden, o1, o2);
      }
    }
  }
}
